# Verified models of a configuration module for Varnish

The repository is a Varnish module (C and Lua) that serves settings from INI and JSON files, rules
with regular expressions, and scripts. This project models its hardest parts and proves what they
are for.

- **Tables of variables** are red-black trees (`src/vtree.h`). `RbShape` has the pure trees and what
  colours, black heights and order do under each step; `RbLinks` says what it means that linked nodes
  form a tree with a focus somewhere inside; `RbTree` has the class with the loops that rewrite
  `left`, `right`, `parent` and colour in place; `RbIterate` has the walks and whole runs.
  The same file has splay trees: `SplayShape` and `Splay`.
- **JSON** (`src/cJSON.c`): `JsonText` says what is printed, `JsonSpec` what is parsed; `JsonParser`
  and `JsonPrinter` have the code with its offset, depth and buffers; `JsonRoundTrip` connects the
  two, `JsonDepth` makes the nesting limit exact; `JsonUnicode` is about escapes, `JsonGrammar` and
  `JsonLexemes` say which texts are accepted and `JsonLayout` what is printed; `JsonCompare` is about
  comparison, `ChildList` about the linked children of an item, `Duplicate` about copies of whole
  trees of them and `JsonItems` about the trees the parser builds and the printer walks.
- **Settings files**: `VariablesDump` (`src/variables.c`) prints a table as JSON; `JsonFlatten` and
  `JsonPaths` turn a document into a table, `JsonValues` says what the variables hold; `DumpLoad`
  closes the circle; `Ini` and `IniFile` are the
  INI pipeline (`src/vmod_cfg_file.c`, `src/ini.c`); `Rules` parses rules in place
  (`src/vmod_cfg_rules.c`). `IniLines` and `RulesLines` say what lines mean as they are written.
  `CString`, `Blanks` and `CBuffer` hold what they share.
- **Script engines**: `Pool` and `Script` have the critical sections of the engine pool
  (`src/script_helpers.c`), `PoolThreads` all interleavings of threads that use it, `Shared` the
  re-entrant lock and the counters of scripts (`src/script_lua.c`, `src/script_lua_helpers.lua`).
- **Reloads** (`src/remote.c`): `Reload` has all interleavings of threads in `check_remote`, `Remote`
  a call by itself, `Backups` what backups are for.

Code that works in place is imperative here, too: a method with its loops, proved against a function
of the old state, and lemmas about that function. Concurrency is modelled as atomic steps; a run is a
sequence of events, so that a statement about runs is one about every interleaving.

## How to read the main results

- Characters stand for bytes. A C string is a sequence without NUL.
- A tree with a focus is a pair of a context and a subtree; `Owns(c, t)` says that the nodes of the
  class are linked exactly as that pair prescribes. `Valid` adds the red-black conditions and order.
- `Plain` values are those the round trip is about. `Whole` values have 32-bit integers as numbers.
- Steps of a protocol are functions of a state and an event that also carries the answers of the
  outside world (the clock, the remote, the file system, the choice of the woken waiters).

Five things the code does not do are stated as such: digits of a `\u` escape are not checked
(`JsonUnicode.MalformedDigits`), overlapping forced loads can leave a kept text that is not the one in
use (`Reload.OverlapBreaks`) or make one fail in spite of a good backup (`Backups.OverlapFails`),
flattened names can clash if a key contains the delimiter (`JsonPaths.DelimiterInKeyClashes`), and an
object with a repeated key can differ from itself (`JsonCompare.RepeatedKeyDiffers`). The conditions
under which each is excluded are `JsonUnicode.Accepted`, `Reload.SettlesIffNoClash`,
`Backups.SucceedsIffNoHazard`, `JsonPaths.InsertableLeaves` and `JsonCompare.SelfIffUniform`. Beyond
its documentation, which asks for five spare bytes,
`cJSON_PrintPreallocated` needs two for the trees considered here (`JsonPrinter.PrintPreallocated`).

## Model

| member | source | states |
|---|---|---|
| `CString.StrcmpFlip` | src/variables.c:18-22 | the comparison of names changes sign when its arguments are swapped |
| `CString.StrcmpZero` | src/variables.c:18-22 | it is zero for equal names only |
| `CString.LessTrans` | src/variables.c:18-22 | the order of names is transitive |
| `CString.LessIs` | src/variables.c:18-22 | a name comes before another if and only if it has the smaller byte at the first place where they differ, or ends there |
| `RbTree.Head.RotateLeft` | src/vtree.h:338-356 | a left rotation on linked nodes turns the subtree of a node into its left-rotated form, wherever it hangs, with every parent link, child link and the root right |
| `RbTree.Head.RotateRight` | src/vtree.h:358-376 | the same for a right rotation |
| `RbShape.RotLKeepsOrder` | src/vtree.h:338-356 | a left rotation keeps the in-order sequence of nodes |
| `RbShape.RotRKeepsOrder` | src/vtree.h:358-376 | a right rotation keeps the in-order sequence of nodes |
| `RbShape.InsertPushL` | src/vtree.h:412-418 | recolouring at a red uncle moves the only red-red pair two levels up and keeps all black heights (left side) |
| `RbShape.InsertPushR` | src/vtree.h:428-434 | the same on the right side |
| `RbShape.InsertLiftL` | src/vtree.h:419-426 | recolouring and rotating at a black uncle leaves a subtree with no red-red pair and the old black height (left side) |
| `RbShape.InsertLiftR` | src/vtree.h:435-442 | the same on the right side |
| `RbTree.Head.InsertColor` | src/vtree.h:404-446 | from a tree whose only fault is a red node under a red node, the fix-up loop ends with a valid tree of the same nodes in the same order |
| `RbShape.RemovePushL` | src/vtree.h:462-468 | a black sibling with black children turns red, and the missing black node is then missing one level up (left side) |
| `RbShape.RemovePushR` | src/vtree.h:495-501 | the same on the right side |
| `RbShape.RemoveTurnL` | src/vtree.h:470-479 | a red near nephew is rotated to the far side without any change of black heights (left side) |
| `RbShape.RemoveTurnR` | src/vtree.h:503-512 | the same on the right side |
| `RbShape.RemoveLiftL` | src/vtree.h:480-486 | with a red far nephew one rotation makes up for the missing black node, and the loop ends (left side) |
| `RbShape.RemoveLiftR` | src/vtree.h:513-519 | the same on the right side |
| `RbShape.RemoveDone` | src/vtree.h:523-525 | blackening the node at which the loop stops gives a red-black tree with a black root |
| `RbTree.Head.RemoveColor` | src/vtree.h:448-525 | from a tree in which one subtree is one black node short, the fix-up loop ends with a red-black tree: same nodes, same order, all links right |
| `RbTree.Head.Seek` | src/vtree.h:600-613 | the descent ends at the node with the key, or at the one empty place where it belongs |
| `RbTree.Head.Insert` | src/vtree.h:596-625 | a new key: exactly the new node is added, at its place in key order, and the tree is a valid red-black search tree; a taken key: the node that has it is returned and no link, colour or root changes |
| `RbShape.CutOut` | src/vtree.h:576-591 | cutting out a node with at most one child leaves a red-black tree if it was red, and a subtree one black node short if it was black |
| `RbShape.PromoteRB` | src/vtree.h:536-575 | moving the successor into the place and colour of a removed node leaves the tree short of black exactly below the old place of the successor, if the successor was black |
| `RbShape.PromoteOrder` | src/vtree.h:536-575 | that move leaves the in-order sequence without the removed node |
| `RbTree.Head.TakePlace` | src/vtree.h:556-567 | the successor node itself takes over all links, the colour and the neighbours of the removed node; no key is copied |
| `RbTree.Head.Remove` | src/vtree.h:527-594 | removing a node of the tree: the node set loses exactly that node, the sequence loses exactly that element, the others are the same objects, and the tree is valid: ordered, root black, no red node under a red one, equal black counts, every parent link matching its child link |
| `RbTree.Head.Find` | src/vtree.h:627-643 | finds the node with the key if and only if there is one |
| `RbTree.Head.NFind` | src/vtree.h:645-664 | the node with the key or else the first one with a greater key, or nothing if all keys are smaller |
| `RbTree.Head.OneKeyEach` | src/vtree.h:596-625 | no two nodes of a valid tree have one key |
| `RbIterate.Next` | src/vtree.h:666-686 | the node behind the given one in key order, or nothing after the last |
| `RbIterate.Prev` | src/vtree.h:688-707 | the node before the given one in key order; with the contract of Next, each undoes the other |
| `RbIterate.MinMax` | src/vtree.h:709-722 | the first node in key order for a negative argument, the last one otherwise |
| `RbIterate.Foreach` | src/vtree.h:736-739 | the loop visits exactly the nodes of the tree, each once, in strictly ascending key order |
| `RbIterate.Flush` | src/variables.c:54-63 | removing each visited node inside FOREACH_SAFE still visits every node once, in order, and ends with the empty tree |
| `RbIterate.Execute` | src/vtree.h:527-625 | any run of insertions (of taken keys, too) and removals (of absent keys, too) leaves a valid tree of exactly the nodes the run leaves in a set, of height at most 2 lg(n + 1) |
| `RbShape.HeightBound` | src/vtree.h:50-57 | two to the height of a red-black tree is at most the square of its size plus one |
| `SplayShape.RotateRight` | src/vtree.h:84-88 | a rotation at the root in the middle of a splay keeps the order, and what already hangs elsewhere |
| `SplayShape.RotateLeft` | src/vtree.h:90-94 | the same for the mirror image |
| `SplayShape.LinkLeft` | src/vtree.h:96-100 | the root moves to the rim of the tree of greater nodes, and the order of all three trees together stays |
| `SplayShape.LinkRight` | src/vtree.h:102-106 | the same for the tree of smaller nodes |
| `SplayShape.Assemble` | src/vtree.h:108-113 | the first two assignments finish both side trees below the auxiliary node |
| `Splay.Heap.Join` | src/vtree.h:108-113 | the root takes both side trees from the auxiliary node, and all nodes are linked as one tree |
| `Splay.Heap.Splay` | src/vtree.h:205-238 | top-down splaying keeps the in-order sequence and the nodes, and ends with the node of the key at the root, or with one next to where the key would be |
| `Splay.Heap.NearFinds` | src/vtree.h:205-238 | if the key is anywhere in the tree, that node is at the root |
| `Splay.Heap.Find` | src/vtree.h:123-133 | finds the node with the key if and only if there is one, and keeps the sequence |
| `Splay.Heap.Insert` | src/vtree.h:160-182 | inserting refines insertion into a set and a sorted sequence; a taken key returns the node that has it and changes neither |
| `Splay.Heap.Remove` | src/vtree.h:184-203 | removing refines removal from a set and a sorted sequence; nothing is removed if and only if no node has the key |
| `JsonParser.ParseBuffer.ParseHex4` | src/cJSON.c:624-658 | the value of four hexadecimal digits in either case, zero if one of them is none |
| `JsonParser.ParseBuffer.Utf16ToUtf8` | src/cJSON.c:661-780 | decodes one escape or a surrogate pair and appends its UTF-8 bytes, or fails, as the specification of escapes says |
| `JsonParser.ParseBuffer.EncodeUtf8` | src/cJSON.c:727-775 | the shifts and masks of the encoder, run backwards over the bytes, write the UTF-8 form of the code point |
| `JsonParser.UnicodeFits` | src/cJSON.c:796-835 | a \u escape, whatever its digits and wherever the first pass stood, leaves at least as many budgeted bytes as its UTF-8 form takes |
| `JsonParser.HalvesAdvance` | src/cJSON.c:796-835 | the budget of the first pass, counted in halves, falls by at least one for every input byte the second pass moves over, also when the two are out of step |
| `JsonParser.ParseBuffer.Measure` | src/cJSON.c:796-822 | the first pass finds the closing quote, if there is one, and the size of the buffer |
| `JsonParser.ParseBuffer.Fill` | src/cJSON.c:824-887 | for every byte sequence the second pass stays inside the buffer of that size with room for the NUL, and gives the unescaped text or fails at a bad escape |
| `JsonParser.ParseBuffer.ReadString` | src/cJSON.c:782-910 | reads a string exactly as the specification ParseString does, with the offset behind the closing quote |
| `JsonParser.ParseBuffer.SkipWhitespace` | src/cJSON.c:1048-1072 | the offset moves over all bytes up to the blank, but not behind the last byte |
| `JsonParser.ParseBuffer.ReadNumber` | src/cJSON.c:308-383 | up to 63 number characters are read as strtod reads them |
| `JsonParser.ParseBuffer.ReadValue` | src/cJSON.c:1326-1379 | dispatches on the first byte and gives the value and the offset that the grammar gives, failing where it fails |
| `JsonParser.ParseBuffer.ReadArray` | src/cJSON.c:1455-1551 | elements between brackets, in order, at most 1000 levels deep; the new items stand for them, linked as a child list on every level |
| `JsonParser.ParseBuffer.ReadObject` | src/cJSON.c:1615-1731 | members between braces, in order, with repeated keys kept; the new items stand for them, linked as a child list on every level |
| `JsonParser.ParseItem` | src/cJSON.c:1105-1183 | for every text the parser that moves an offset and a depth over it computes the function Parse, and the new items it links say exactly what the value says, each in one place |
| `JsonGrammar.TextReads` | src/cJSON.c:1105-1183 | a text put together by the grammar (blanks, words, lexemes, brackets, commas, colons; a byte order mark or none) is read as what its structure says, whatever follows |
| `JsonGrammar.TextUnderstood` | src/cJSON.c:1105-1183 | nothing else is accepted: every text that is read has such a structure, with that meaning, within the nesting limit |
| `JsonGrammar.NoteReads` | src/cJSON.c:1326-1379 | the same for a value at any place of a larger text |
| `JsonGrammar.ValueUnderstood` | src/cJSON.c:1326-1379 | and the converse at any place |
| `JsonGrammar.StrtodPrefix` | src/cJSON.c:308-383 | what is read as a number does not depend on what stands behind it |
| `JsonLexemes.NumberReads` | src/cJSON.c:308-383 | every number with sign, fraction and exponent is read to its end as the value its digits write |
| `JsonLexemes.LongNumber` | src/cJSON.c:323-350 | of a longer run of digits the first 63 are read |
| `JsonLexemes.StringIsLexeme` | src/cJSON.c:782-910 | every string of plain bytes, two-character escapes (by a table of letters and bytes), codes and surrogate pairs in any mix of cases stands for the bytes of its parts |
| `JsonItems.Add` | src/cJSON.c:1500-1512 | each new item is linked behind the last one without disturbing what was read before |
| `JsonItems.Close` | src/cJSON.c:1530-1542 | the first child gets its link to the last one, and the item stands for the whole array or object |
| `JsonItems.BuiltValid` | src/cJSON.c:1455-1731 | every item of the tree the parser builds has its children in a list as `ChildList` keeps it |
| `JsonItems.SaysOne` | src/cJSON.c:1326-1379 | the kinds, texts, numbers and keys of the items below one determine its value |
| `JsonPrinter.PrintBuffer.Ensure` | src/cJSON.c:448-532 | makes room by growing to twice the needed size or to INT_MAX, keeps what was written, and fails only when the limit of the buffer forbids it |
| `JsonPrinter.PrintBuffer.UpdateOffset` | src/cJSON.c:534-545 | moves the offset from inside the last piece to the NUL behind it |
| `JsonPrinter.PrintBuffer.PrintString` | src/cJSON.c:912-1032 | counts the extra bytes first and writes exactly the escaped, quoted string and a NUL |
| `JsonPrinter.PrintBuffer.PrintNumber` | src/cJSON.c:554-622 | writes the decimal form of a 32-bit integer |
| `JsonPrinter.PrintBuffer.PrintArray` | src/cJSON.c:1553-1613 | walks the links of the children and writes the text of the array they say behind what was written before, and restores the depth |
| `JsonPrinter.PrintBuffer.PrintObject` | src/cJSON.c:1733-1845 | walks the links of the children and writes the text of the object they say, formatted or not, behind what was written before, and restores the depth |
| `JsonPrinter.PrintBuffer.PrintValue` | src/cJSON.c:1381-1453 | dispatches on the kind of the item and writes exactly the text of the value the linked items say; it succeeds only with two bytes to spare, and whenever these are within the limit of the buffer |
| `JsonPrinter.Print` | src/cJSON.c:1197-1263 | printing into the growing buffer gives the text of the tree, and succeeds if and only if the text and two more bytes are within INT_MAX |
| `JsonPrinter.PrintPreallocated` | src/cJSON.c:1306-1324 | printing into a buffer of the caller stays inside it, leaves the text of the tree as a C string, and succeeds if and only if the text and two more bytes fit |
| `JsonPrinter.PrintAndParse` | src/cJSON.c:1197-1845 | a linked tree of null, booleans, 32-bit integers, NUL-free strings, arrays and objects comes back from printing (formatted or not) and parsing as another linked tree that says the same, keys and order intact, if and only if it is at most 1000 levels deep |
| `JsonLayout.ScalarText` | src/cJSON.c:1381-1453 | null, true, false, the digits of an integer without needless ones, and a quoted string |
| `JsonLayout.EscapedIs` | src/cJSON.c:986-1027 | each byte as it is, as the letter of its escape or as the code of a control byte, by tables |
| `JsonLayout.ArrayText` | src/cJSON.c:1553-1613 | an array is its elements between brackets, with a comma between them, and a space behind it if formatted |
| `JsonLayout.ObjectText` | src/cJSON.c:1733-1845 | an object is on one line without blanks, or has each member on a line of its own, behind a tab for each level, with a tab behind the colon |
| `JsonLayout.BracketLimit` | src/cJSON.c:1461-1464 | a thousand nested brackets are read, one more is refused |
| `JsonDepth.RoundTripIff` | src/cJSON.c:1326-1845 | the text of every such tree parses to that tree if it is at most 1000 levels deep, and is refused otherwise |
| `JsonDepth.ValueTooDeep` | src/cJSON.c:1461-1464 | a printed tree that goes below the limit is refused, at any offset and depth |
| `JsonItems.SayKid` | src/cJSON.c:1565-1610 | the children, followed through their links, say the elements in order |
| `JsonRoundTrip.RoundTrip` | src/cJSON.c:1326-1845 | the text of every such tree within the limit parses to that tree |
| `JsonRoundTrip.ValueRoundTrip` | src/cJSON.c:1326-1453 | the same inside any larger text, at any offset and depth |
| `JsonRoundTrip.MembersRoundTrip` | src/cJSON.c:1615-1845 | the members of an object, with their layout, are read back in order |
| `JsonRoundTrip.NumberRoundTrip` | src/cJSON.c:308-383 | the decimal form of a 32-bit integer is read back as that integer |
| `JsonRoundTrip.StringRoundTrip` | src/cJSON.c:782-1032 | an escaped string is read back byte for byte |
| `JsonUnicode.Utf8Decodes` | src/cJSON.c:727-775 | the bytes emitted for a Unicode scalar value decode to it under section 3 of RFC 3629 |
| `JsonUnicode.DecodeEncodes` | src/cJSON.c:727-775 | every byte sequence that RFC 3629 lets decode is the one the encoder writes |
| `JsonUnicode.HexReads` | src/cJSON.c:624-658 | four digits, each looked up in the table of small or of capital digits, are the number they write; without four digits it is zero |
| `JsonUnicode.EscapedScalar` | src/cJSON.c:661-780 | a scalar value written as one escape, or as a surrogate pair (section 7 of RFC 8259, section 2.2 of RFC 2781), becomes its UTF-8 form |
| `JsonUnicode.UnpairedSurrogate` | src/cJSON.c:683-719 | a low surrogate first, or a high one with no low one behind it, is rejected |
| `JsonUnicode.MalformedDigits` | src/cJSON.c:645-648 | digits that are not hexadecimal are not rejected: the escape stands for NUL |
| `JsonUnicode.Accepted` | src/cJSON.c:661-780 | an escape is accepted only if it is that of a scalar value, or has a malformed digit |
| `JsonCompare.CompareItems` | src/cJSON.c:3011-3134 | the comparison, without the shortcut for one address, computes Compare: element by element, and both ways for objects |
| `JsonCompare.FindMember` | src/cJSON.c:1900-1930 | the first member with the key, with or without regard to case |
| `JsonCompare.Symmetric` | src/cJSON.c:3011-3134 | the comparison is symmetric on all trees |
| `JsonCompare.Transitive` | src/cJSON.c:3011-3134 | it is transitive on all trees whose numbers are 32-bit integers |
| `JsonCompare.CloseIsEqual` | src/cJSON.c:547-552 | on 32-bit integers the tolerance of compare_double is too small to matter |
| `JsonCompare.CloseEdge` | src/cJSON.c:547-552 | one part in the 52nd power of two is close, two parts are not |
| `JsonCompare.LowerIs` | src/cJSON.c:134-155 | without regard to case two keys are one if and only if their letters are, one by one, by a table of both cases |
| `JsonCompare.MeaningDecides` | src/cJSON.c:3072-3129 | where members with one key mean the same, two trees compare equal if and only if they stand for the same nested maps from keys to values |
| `JsonCompare.SelfIffUniform` | src/cJSON.c:3072-3129 | a tree equals itself if and only if, in each of its objects, members with one key mean the same |
| `JsonCompare.DistinctIsUniform` | src/cJSON.c:3072-3129 | in particular if no object repeats a key |
| `JsonCompare.RepeatedKeyDiffers` | src/cJSON.c:3072-3129 | an object with a repeated key can differ from itself |
| `ChildList.GetArraySize` | src/cJSON.c:1848-1869 | the number of children |
| `ChildList.GetItem` | src/cJSON.c:1871-1888 | the child at an index, or nothing |
| `ChildList.Append` | src/cJSON.c:1976-2007 | appending to the links appends to the sequence; an item is refused as its own child |
| `ChildList.InsertAt` | src/cJSON.c:2283-2315 | inserting at an index does so in the sequence, and appends past the end; the guard against an item as its own child works at the end of the list only |
| `ChildList.Detach` | src/cJSON.c:2207-2241 | detaching removes exactly that child and clears its links, with the head still pointing back at the last one |
| `ChildList.Replace` | src/cJSON.c:2317-2364 | replacing puts the new item in the same place and clears the links of the old one |
| `ChildList.ChangesAt` | src/cJSON.c:2207-2374 | which element is where after an insertion, a removal or a replacement |
| `ChildList.Execute` | src/cJSON.c:1976-2374 | any run of append, insert, detach and replace with detached items leaves the sequence that the same run leaves of a mathematical sequence, with next, prev and the head consistent |
| `Duplicate.Duplicate` | src/cJSON.c:2731-2812 | the copy of an item says the same (flags of references cleared), alone or with all its children, is linked as a child list on every level, and consists of new items only, each in one place |
| `Duplicate.LinkCopy` | src/cJSON.c:2776-2796 | each copied child is linked behind the last one without disturbing the trees below |
| `Duplicate.CloseRing` | src/cJSON.c:2798-2801 | the first copied child gets its link to the last one, which makes the list complete |
| `VariablesDump.PutString` | src/variables.c:128-171 | writes a quoted string, each byte plain, as a short escape or as a \u00 escape |
| `VariablesDump.DumpVariables` | src/variables.c:178-221 | writes the JSON object of exactly the variables whose name starts with the prefix, in key order |
| `VariablesDump.MatchingIs` | src/variables.c:202-206 | a variable is dumped if and only if its name starts with the prefix |
| `VariablesDump.MatchingAscends` | src/variables.c:200-216 | and the names stay in ascending order |
| `JsonLayout.DumpCharIs` | src/variables.c:128-171 | a dump escapes like the printer, and also writes bytes from 127 on by their codes |
| `VariablesDump.DumpReadBack` | src/variables.c:178-221 | the JSON parser reads a dump back as one string member for each row, in order, with each byte as the UTF-8 form of its Latin-1 code point |
| `VariablesDump.SevenBit` | src/variables.c:128-171 | 7-bit bytes come back as themselves |
| `JsonFlatten.InsertVariable` | src/vmod_cfg_file.c:186-199 | inserting a variable fails its assertions exactly for an empty or a taken name |
| `JsonFlatten.Walk` | src/vmod_cfg_file.c:202-224 | the recursive walk adds exactly the flattened rows to the table, unless an insertion would fail |
| `JsonFlatten.LoadJson` | src/vmod_cfg_file.c:226-268 | a text is loaded as the rows of its object, rejected if it is not one, and aborts exactly where an assertion fails |
| `JsonPaths.FlattenIsLeaves` | src/vmod_cfg_file.c:166-224 | the rows are the scalar leaves, named by their joined paths, for every delimiter |
| `JsonPaths.JoinInjective` | src/vmod_cfg_file.c:209-219 | without the delimiter in any key, a name splits into its keys in one way only |
| `JsonPaths.NoAssertionFails` | src/vmod_cfg_file.c:186-199 | with distinct, non-empty keys free of the delimiter the insert assertion never fires |
| `JsonPaths.InsertableIff` | src/vmod_cfg_file.c:186-199 | it never fires if and only if the names are non-empty, distinct and unused |
| `JsonPaths.InsertableLeaves` | src/vmod_cfg_file.c:186-224 | on the document, for every delimiter: it never fires if and only if the joined paths of the scalar leaves are non-empty and differ from each other |
| `JsonPaths.VariableIff` | src/vmod_cfg_file.c:166-224 | for such documents a joined path is a variable with a value if and only if it leads to a scalar emitted as that value; nulls and arrays are absent |
| `JsonValues.VariableHolds` | src/vmod_cfg_file.c:166-224 | a path to true or false is the variable "true" or "false", one to a string has that string, one to a number has a text that writes it; null, arrays, objects and missing paths are no variables |
| `JsonValues.WholeTold` | src/vmod_cfg_file.c:175-178 | an integer is written as itself, beyond 32 bits as the bound |
| `JsonValues.OthersTold` | src/vmod_cfg_file.c:179-181 | any other number is written with three decimals, half a thousandth off at most |
| `JsonPaths.DelimiterInKeyClashes` | src/vmod_cfg_file.c:202-224 | with the delimiter inside a key two leaves can get one name, and the assertion fires |
| `DumpLoad.DumpAndLoad` | src/vmod_cfg_file.c:226-268 | dumping a table and loading the dump gives the dumped rows in UTF-8, the same map for 7-bit tables, and aborts exactly if a dumped name is empty |
| `DumpLoad.Latin1Injective` | src/variables.c:128-171 | no two byte strings come back as one |
| `IniFile.Stream.Read` | src/vmod_cfg_file.c:51-87 | reads one line that fits the buffer and moves behind it, over one newline character that repeats the last |
| `IniFile.RStrip` | src/ini.c:49-56 | strips trailing white space in place and touches nothing else |
| `IniFile.FindChars` | src/ini.c:66-84 | the first of the characters or of an inline comment |
| `IniFile.OneLine` | src/ini.c:140-232 | splitting a line in its buffer gives what the line means: nothing, a section, an item, a continuation or an error |
| `IniFile.Handle` | src/vmod_cfg_file.c:89-121 | the table changes under the flattened name only: the value is set, or appended behind the delimiter if there is one already |
| `IniFile.ParseStream` | src/ini.c:99-249 | all lines of the stream go into the table as their meaning says, up to the first wrong line |
| `IniFile.LoadIni` | src/vmod_cfg_file.c:123-160 | the reader, the parser and the handler compute the table of the lines, or refuse the text at the first wrong line |
| `IniLines.PairLine` | src/ini.c:205-224 | name, delimiter and value, with blanks anywhere and a comment behind white space, give exactly that name and that value |
| `IniLines.SectionLine` | src/ini.c:188-199 | a name in brackets enters that section |
| `IniLines.OpenSection` | src/ini.c:200-203 | without the closing bracket the line is wrong |
| `IniLines.NoDelimiter` | src/ini.c:225-235 | without a delimiter, or with none before a comment, the line is wrong |
| `IniLines.CommentLine` | src/ini.c:169-173 | comment lines give nothing, indented or not, behind a name or not |
| `IniLines.ContinuationLine` | src/ini.c:175-186 | an indented line behind a name adds its text to that name |
| `IniLines.FirstLineMark` | src/ini.c:161-168 | a byte order mark is skipped on the first line |
| `IniLines.DocumentLoads` | src/vmod_cfg_file.c:89-160 | a document of pairs and sections loads as the map from section, delimiter and name to value, and nothing else |
| `IniLines.LoadDocument` | src/vmod_cfg_file.c:123-160 | the same, with the code that loads it |
| `Ini.MovesOn` | src/ini.c:188-224 | what a line leaves for the next one: the section and the name to continue, cut to 49 bytes |
| `Ini.LongLine` | src/vmod_cfg_file.c:51-87 | a line that does not fit is cut to what fits, and the byte behind it is lost |
| `Ini.ReaderIsSplit` | src/vmod_cfg_file.c:51-87 | for texts whose lines fit the buffer, the newlines the reader skips never change the result: it is that of splitting at every CR and LF |
| `Ini.TextHolds` | src/ini.c:99-249 | after a whole text the table has exactly the given names, and each holds its values in order, with the delimiter between all values from the first non-empty one on |
| `Ini.ProcessHolds` | src/ini.c:99-249 | the same from any line, place and table on |
| `Script.Script.TryLock` | src/script_helpers.c:35-83 | one critical section of lock_engine takes the first usable free engine, drops the expired ones before it, makes a new one if there is room, and waits otherwise |
| `Pool.AttemptedIs` | src/script_helpers.c:43-80 | by the queues: the first free engine that has not run its cycles is taken and those before it are dropped; without one a thread waits if and only if as many engines as allowed are busy |
| `Script.Script.Unlock` | src/script_helpers.c:99-103 | the engine leaves its place in the busy queue and becomes the last of the free queue |
| `Pool.PurgedKeeps` | src/script_helpers.c:43-60 | dropping expired engines keeps queues and counters in agreement and executions accounted for, and touches no busy engine |
| `PoolThreads.NextInv` | src/script_helpers.c:35-104 | every step of every thread keeps the invariant |
| `PoolThreads.Safety` | src/script_helpers.c:35-104 | in every interleaving: n = free + busy <= max_engines, engines.total = n + dropped, no engine held by two threads, each busy engine held by one, none run beyond max_cycles, executions.total = cycles of live engines + max_cycles * dropped + those counted but not yet cycled, and no lost wake-up |
| `PoolThreads.WaitsIff` | src/script_helpers.c:43-66 | a thread waits for an engine if and only if every free one is spent and as many as allowed are busy |
| `PoolThreads.RunCounts` | src/script_helpers.c:66-67 | the counter of blocked workers counts the wake-ups of waiting threads, that of executions the executions |
| `PoolThreads.SomeoneMoves` | src/script_helpers.c:64-80 | as long as a thread is in the pool, some thread is not waiting for a signal |
| `PoolThreads.Drains` | src/script_helpers.c:35-104 | without new arrivals every run ends within a bound, and when no thread can move none is left: nobody waits forever; then executions.total is exactly the cycles of the live and the dropped engines |
| `PoolThreads.CanMove` | src/script_helpers.c:35-104 | a thread that does not wait for a signal can always take its next step |
| `Reload.ReloadingIsWinner` | src/remote.c:176-286 | in every state of every run reloading is set if and only if a winner is on its way, there is one at most, and with no thread inside it is clear |
| `Reload.OwnStepsBounded` | src/remote.c:176-286 | every thread is through after at most ten steps of its own, whatever the others do, so every winner clears the flag |
| `Reload.CanMove` | src/remote.c:176-286 | a thread inside can always take its next step |
| `Reload.DueCall` | src/remote.c:182-194 | a call that is not forced contends for a load if and only if none is on its way and more than the period, which is not zero, has gone by since the last one |
| `Reload.WonElection` | src/remote.c:188-193 | it wins and fetches if and only if none is on its way then, either |
| `Reload.LoadsAreDue` | src/remote.c:182-198 | in every run each thread that loads or contends was forced to or came when more than the period had gone by |
| `Reload.FailedLoadKeeps` | src/remote.c:252-269 | a load that fails beside no other changes neither the kept text, nor the one in use, nor the backup, nor the time of the last load |
| `Reload.SettlesIffNoClash` | src/remote.c:197-214 | the exact condition, for every run: from each of its states the kept text becomes the one in use, in whatever order the threads between installing and keeping go on, if and only if no two of them are ever about to keep different texts |
| `Reload.Derail` | src/remote.c:203-209 | a thread about to keep a text that is not in use can be the last to do so, and then the kept text is not the one in use |
| `Reload.NoClashAgrees` | src/remote.c:197-214 | in a run without such a clash the kept text is the one in use whenever nobody is between installing and keeping |
| `Reload.KeptIsInstalled` | src/remote.c:197-214 | in particular in every run in which loads do not overlap |
| `Reload.OverlapBreaks` | src/remote.c:197-214 | clashes happen: from the start, two forced loads of any two different texts can end, with all threads gone, with the first text kept and the second one in use |
| `Backups.BackupsServe` | src/remote.c:175-286 | with automated backups and working files, in every run of loads that do not overlap (others may contend for the next one meanwhile): once a load has succeeded every later one does, whatever the remote answers, and the text in use is the last good one |
| `Backups.NextServes` | src/remote.c:197-280 | each step keeps what that needs: before the first success no load has installed a text, and after it kept text, text in use and backup are the last good one except where a load is about to make them so |
| `Backups.OwnTrial` | src/remote.c:144-214 | the first success of all puts the text in use on its way into the backup, or takes it from there |
| `Backups.RunWritesKept` | src/remote.c:203-217 | while loads do not overlap, the text a load writes to the backup is the kept one |
| `Backups.SucceedsIffNoHazard` | src/remote.c:196-280 | the exact condition with overlaps, for every run: in each of its states no load in flight can fail, whatever the remote answers and in whatever order they go on, if and only if no load that may need the backup is ever beside one that may leave it empty |
| `Backups.NoNewHazard` | src/remote.c:196-269 | loads in flight never bring such a hazard about by themselves |
| `Backups.Fails` | src/remote.c:211-268 | of two such loads, one can open the backup and the other one find it empty |
| `Backups.SoloNeverHazard` | src/remote.c:196-280 | loads that do not overlap are no hazard |
| `Backups.OverlapFails` | src/remote.c:211-268 | hazards happen: from the start, after a first success, a load whose fetch fails while another one is between opening and writing the backup fails, too, with every file operation working |
| `Remote.Remote.CheckRemoteBackup` | src/remote.c:139-173 | a backup that parses is installed and kept, otherwise nothing changes |
| `Remote.Remote.CheckRemote` | src/remote.c:175-286 | what one call alone does to all shared variables and the backup, and what it returns: nothing if not forced and within the period; a good text is installed, kept, saved and timed; otherwise a good backup is, or nothing |
| `Remote.CheckedIsRun` | src/remote.c:175-286 | a call alone is a run of the protocol |
| `Rules.Isolate` | src/vmod_cfg_rules.c:137-168 | ending both parts of a line with NULs, using them and restoring the bytes leaves the text as it was |
| `Rules.SplitLine` | src/vmod_cfg_rules.c:112-168 | a line gives the rule it stands for, nothing if blank, or an error |
| `RulesLines.RuleLine` | src/vmod_cfg_rules.c:114-168 | expression, arrow and value with blanks around them give that rule, or an error if the expression does not compile |
| `RulesLines.ArrowMissing` | src/vmod_cfg_rules.c:121-126 | a line without an arrow is an error |
| `RulesLines.ArrowFirst` | src/vmod_cfg_rules.c:127-130 | so is one with nothing in front of the arrow |
| `RulesLines.LinesRules` | src/vmod_cfg_rules.c:91-189 | a text is refused if and only if one of its lines is bad; otherwise it has the rules of its lines in order, blank ones left out |
| `Rules.RulesParse` | src/vmod_cfg_rules.c:91-189 | the rules of all lines in order, or none if a line is bad; the text is the same afterwards in every case |
| `Rules.RulesReadBack` | src/vmod_cfg_rules.c:91-189 | rules written one to a line are read back, in order |
| `Rules.Get` | src/vmod_cfg_rules.c:311-338 | the value of the first rule that matches, or the fallback |
| `Shared.UnserializeSerialize` | src/script_lua_helpers.lua:25-60 | unserialize undoes serialize |
| `Shared.CountersAdd` | src/script_lua.c:748-791 | for any nesting of eval, with errors, also those of unreadable values, in every interleaving: the lock is taken and given back in turn by the outermost call alone, and a counter is its first value plus the increments stored |
| `Shared.NoIncrementLost` | src/script_lua_helpers.lua:81-98 | when all scripts are through, and none raises an error or meets a value that cannot be read, a counter is its first value plus the sum of all increments in them (those to the empty key, which is never stored, are ignored), and the lock is free |
| `Shared.StoredTexts` | src/script_lua_helpers.lua:81-98 | then every key that is incremented holds the text of the sum, by what stood there first: nothing, a number, a numeral, a truth value or a word; every other key is as it was |
| `Shared.DueOfNested` | src/script_lua_helpers.lua:88-97 | each increment counts once, in functions evaluated at any depth |
| `Shared.SomeoneSteps` | src/script_lua.c:766-791 | no deadlock: as long as a script is not through, some thread can go on |
| `Shared.NextCounter` | src/script_lua_helpers.lua:81-98 | one step changes a counter by exactly what it logs; nothing for an empty key or an unreadable value |

## Left out

- JsonParser.ParseBuffer.ReadNumber: numbers are exact reals; the rounding of `strtod` and the locale's decimal point are not modelled.
- JsonPrinter.PrintBuffer.PrintNumber: only the branch for 32-bit integers; `%1.15g` and `%1.17g` are left out with floating point.
- JsonFlatten.LoadJson: numbers that are not integers are emitted with three decimals, ties away from zero, where `printf` rounds the binary value.
- JsonCompare.Transitive: only for 32-bit integers, because the tolerance of `compare_double` is not transitive on other numbers.
- JsonCompare.CompareItems: works on values; the shortcut for one address, and that the second loop reads links, are not modelled.
- JsonParser.ParseItem: the position of an error is not reported; items of a text that is refused are not deleted; an array or object gets its first child when it is read, not at the end.
- Rules.RulesParse: the compilation of a regular expression is a function of its text; the contents of error messages are left out.
- IniFile.LoadIni: a rejected table is dropped without the flush.
- Script.Script.TryLock: ends where the original waits on the condition; the wait and the retry are steps of `PoolThreads`.
- PoolThreads.Drains: without spurious wake-ups, which alone could go on for ever; `PoolThreads.Safety` includes them.
- Backups.SucceedsIffNoHazard: for loads that overlap only success has its exact condition; which text is in use after it is stated for loads that do not.
- Reload.OverlapBreaks: a load that overlaps another one may write the backup from a buffer that the other one has released; the model writes the text the load had. `Backups.RunWritesKept` excludes this where loads do not overlap.
- Remote.Remote.CheckRemote: the clock, the remote, the backup file and the parser are parameters.
- Shared.UnserializeSerialize: numbers are integers in decimal form.
- Shared.NoIncrementLost: numbers are unbounded integers in decimal form; Lua prints those of fifteen and more digits in exponent form, and also reads blanks, hexadecimal digits, fractions and exponents.
- Shared.CountersAdd: scripts are trees of evaluations, increments and errors; other shared commands on the same keys are left out.
- Bit operations of the JSON parser are written as arithmetic on unbounded integers.
- Allocation failure, workspace limits, magic numbers, `cJSON_Raw`, references, constant keys and custom allocators are not modelled.
- Splay.Heap.Remove: returns the element it was given, as the original does, which need not be the node that was removed.
- `VSPLAY_NEXT` and `VSPLAY_MINMAX`; no part of the repository uses the splay tree.
- Duplicate.Duplicate: a constant key is copied like any other, where the original shares the pointer.
- `cJSON_Minify`, the object variants of the list functions, and the type predicates.
- The cache of compiled regular expressions and the matching itself; the JavaScript twin of the Lua code; HTTP headers, curl, syslog and statistics.
- The splitting of lines longer than the buffer is in `Ini.Lines`, but nothing is claimed about such lines beyond `IniFile.LoadIni`.
