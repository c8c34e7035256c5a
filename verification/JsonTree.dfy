/** JSON trees and their printed text. */
module JsonTree {
  import opened Bytes

  /** Children are chained through `next`, as the library links them. A number is its decimal text. */
  datatype Json =
    | Null | False | True
    | Number(lexeme: seq<byte>)
    | String(text: seq<byte>)
    | Array(items: Items)
    | Object(members: Members)

  datatype Items = NoItem | Item(value: Json, next: Items)

  datatype Members = NoMember | Member(key: seq<byte>, value: Json, next: Members)

  const TAB: byte := 9
  const NEWLINE: byte := 10
  const SPACE: byte := 32
  const QUOTE: byte := 34
  const PLUS: byte := 43
  const COMMA: byte := 44
  const MINUS: byte := 45
  const DOT: byte := 46
  const SLASH: byte := 47
  const COLON: byte := 58
  const LBRACKET: byte := 91
  const BACKSLASH: byte := 92
  const RBRACKET: byte := 93
  const LBRACE: byte := 123
  const RBRACE: byte := 125

  const NULL_TEXT: seq<byte> := [110, 117, 108, 108]
  const FALSE_TEXT: seq<byte> := [102, 97, 108, 115, 101]
  const TRUE_TEXT: seq<byte> := [116, 114, 117, 101]

  /** Deepest nesting of arrays and objects. */
  function Nesting(j: Json): nat {
    match j
    case Array(items) => 1 + ItemsNesting(items)
    case Object(members) => 1 + MembersNesting(members)
    case _ => 0
  }

  function ItemsNesting(items: Items): nat {
    match items
    case NoItem => 0
    case Item(v, next) => Max(Nesting(v), ItemsNesting(next))
  }

  function MembersNesting(ms: Members): nat {
    match ms
    case NoMember => 0
    case Member(_, v, next) => Max(Nesting(v), MembersNesting(next))
  }

  function Max(a: nat, b: nat): nat { if a < b then b else a }

  // ---------------------------------------------------------------------------------------------
  // Number text

  predicate IsDigit(b: byte) { 48 <= b <= 57 }

  /** The characters `parse_number` collects: digits, signs, exponent letters and the decimal point. */
  predicate IsNumberChar(b: byte) {
    IsDigit(b) || b == PLUS || b == MINUS || b == 101 || b == 69 || b == DOT
  }

  function Digits(s: seq<byte>): (n: nat)
    ensures n <= |s|
  {
    if s != [] && IsDigit(s[0]) then 1 + Digits(s[1..]) else 0
  }

  function SignLength(s: seq<byte>): (n: nat)
    ensures n <= |s| && n <= 1
  {
    if s != [] && (s[0] == PLUS || s[0] == MINUS) then 1 else 0
  }

  /** Length of the exponent part at the head of `s`; a bare `e` without digits does not count. */
  function ExponentLength(s: seq<byte>): (n: nat)
    ensures n <= |s|
  {
    if s == [] || (s[0] != 101 && s[0] != 69) then 0
    else
      var sign := SignLength(s[1..]);
      var digits := Digits(s[1 + sign..]);
      if digits == 0 then 0 else 1 + sign + digits
  }

  /** How much of `s` the C function `strtod` takes as a decimal number. */
  function StrtodLength(s: seq<byte>): (n: nat)
    ensures n <= |s|
  {
    var sign := SignLength(s);
    var whole := Digits(s[sign..]);
    var p := sign + whole;
    var fraction := if p < |s| && s[p] == DOT then 1 + Digits(s[p + 1..]) else 0;
    if whole == 0 && fraction <= 1 then 0
    else p + fraction + ExponentLength(s[p + fraction..])
  }

  /** The size of the buffer of `print_number`, and how much of a number `parse_number` takes. */
  const NUMBER_BUFFER: nat := 26
  const NUMBER_LIMIT: nat := 63

  /** A whole `strtod` number that `parse_number` takes. */
  predicate IsNumberText(l: seq<byte>) {
    && 0 < |l| <= NUMBER_LIMIT
    && (l[0] == MINUS || IsDigit(l[0]))
    && (forall i :: 0 <= i < |l| ==> IsNumberChar(l[i]))
    && StrtodLength(l) == |l|
  }

  /** Trees whose strings are C strings and whose numbers are texts of numbers. */
  predicate Printable(j: Json) {
    match j
    case Number(l) => IsNumberText(l)
    case String(t) => NulFree(t)
    case Array(items) => PrintableItems(items)
    case Object(members) => PrintableMembers(members)
    case _ => true
  }

  predicate PrintableItems(items: Items) {
    items.Item? ==> Printable(items.value) && PrintableItems(items.next)
  }

  predicate PrintableMembers(ms: Members) {
    ms.Member? ==> NulFree(ms.key) && Printable(ms.value) && PrintableMembers(ms.next)
  }

  /** Numbers that fit the buffer of `print_number`, as those it prints do. */
  predicate ShortNumbers(j: Json) {
    match j
    case Number(l) => |l| < NUMBER_BUFFER
    case Array(items) => ShortItems(items)
    case Object(ms) => ShortMembers(ms)
    case _ => true
  }

  predicate ShortItems(items: Items) {
    items.Item? ==> ShortNumbers(items.value) && ShortItems(items.next)
  }

  predicate ShortMembers(ms: Members) {
    ms.Member? ==> ShortNumbers(ms.value) && ShortMembers(ms.next)
  }

  // ---------------------------------------------------------------------------------------------
  // Printed text

  function HexDigit(n: nat): byte
    requires n < 16
  {
    if n < 10 then 48 + n else 87 + n
  }

  /** How `print_string_ptr` writes one byte (section 7 of RFC 8259). */
  function EscapeByte(b: byte): (r: seq<byte>)
    ensures 1 <= |r| <= 6
  {
    if b == QUOTE || b == BACKSLASH then [BACKSLASH, b]
    else if b == 8 then [BACKSLASH, 98]
    else if b == 12 then [BACKSLASH, 102]
    else if b == NEWLINE then [BACKSLASH, 110]
    else if b == 13 then [BACKSLASH, 114]
    else if b == TAB then [BACKSLASH, 116]
    else if b < 32 then [BACKSLASH, 117, 48, 48, HexDigit(b / 16), HexDigit(b % 16)]
    else [b]
  }

  function Escape(t: seq<byte>): seq<byte> {
    if t == [] then [] else EscapeByte(t[0]) + Escape(t[1..])
  }

  function Quoted(t: seq<byte>): seq<byte> {
    [QUOTE] + (Escape(t) + [QUOTE])
  }

  /** The whitespace a printer puts in: after an array comma, around object members, and as indentation. */
  datatype Style = Style(space: seq<byte>, newline: seq<byte>, tab: seq<byte>)

  const FORMATTED := Style([SPACE], [NEWLINE], [TAB])
  const UNFORMATTED := Style([], [], [])
  /** What is left of the formatted layout once newlines and tabs are deleted. */
  const STRIPPED := Style([SPACE], [], [])

  function Tabs(st: Style, n: nat): seq<byte> {
    if n == 0 then [] else st.tab + Tabs(st, n - 1)
  }

  /** The text of a tree printed inside `depth` containers. */
  function Text(st: Style, j: Json, depth: nat): seq<byte>
    decreases j, 0
  {
    match j
    case Null => NULL_TEXT
    case False => FALSE_TEXT
    case True => TRUE_TEXT
    case Number(l) => l
    case String(t) => Quoted(t)
    case Array(items) => [LBRACKET] + ItemsText(st, items, depth + 1)
    case Object(members) => [LBRACE] + (st.newline + MembersText(st, members, depth + 1))
  }

  /** The items of an array and its closing bracket. */
  function ItemsText(st: Style, items: Items, depth: nat): seq<byte>
    decreases items, 0
  {
    match items
    case NoItem => [RBRACKET]
    case Item(v, next) => Text(st, v, depth) + ItemsRest(st, next, depth)
  }

  function ItemsRest(st: Style, items: Items, depth: nat): seq<byte>
    decreases items, 0
  {
    match items
    case NoItem => [RBRACKET]
    case Item(v, next) => [COMMA] + (st.space + (Text(st, v, depth) + ItemsRest(st, next, depth)))
  }

  /** The members of an object, each on its own line, and its closing brace. */
  function MembersText(st: Style, ms: Members, depth: nat): seq<byte>
    decreases ms, 0
  {
    match ms
    case NoMember => Closing(st, depth)
    case Member(k, v, next) => MemberText(st, k, v, depth) + MembersRest(st, next, depth)
  }

  function MembersRest(st: Style, ms: Members, depth: nat): seq<byte>
    decreases ms, 0
  {
    match ms
    case NoMember => st.newline + Closing(st, depth)
    case Member(k, v, next) =>
      [COMMA] + (st.newline + (MemberText(st, k, v, depth) + MembersRest(st, next, depth)))
  }

  function MemberText(st: Style, k: seq<byte>, v: Json, depth: nat): seq<byte>
    decreases v, 1
  {
    Tabs(st, depth) + (Quoted(k) + ([COLON] + (st.tab + Text(st, v, depth))))
  }

  function Closing(st: Style, depth: nat): seq<byte> {
    Tabs(st, if depth == 0 then 0 else depth - 1) + [RBRACE]
  }

  /** An object, as the two printers lay it out. */
  lemma LayoutOfAnObject()
    ensures var j := Object(Member([97], Null, NoMember));
      && Text(FORMATTED, j, 0) == [123, 10, 9, 34, 97, 34, 58, 9, 110, 117, 108, 108, 10, 125]
      && Text(UNFORMATTED, j, 0) == [123, 34, 97, 34, 58, 110, 117, 108, 108, 125]
  {
    assert Escape([97]) == [97];
    assert Tabs(FORMATTED, 1) == [9] && Tabs(FORMATTED, 0) == [];
    assert Tabs(UNFORMATTED, 1) == [] && Tabs(UNFORMATTED, 0) == [];
    assert MemberText(FORMATTED, [97], Null, 1) == [9, 34, 97, 34, 58, 9, 110, 117, 108, 108];
    assert MemberText(UNFORMATTED, [97], Null, 1) == [34, 97, 34, 58, 110, 117, 108, 108];
    assert Closing(FORMATTED, 1) == [125] == Closing(UNFORMATTED, 1);
    hide MemberText, Closing, Tabs;
  }

  /** An array, as the two printers lay it out. */
  lemma LayoutOfAnArray()
    ensures var a := Array(Item(Number([49]), Item(Null, NoItem)));
      && Text(FORMATTED, a, 1) == [91, 49, 44, 32, 110, 117, 108, 108, 93]
      && Text(UNFORMATTED, a, 1) == [91, 49, 44, 110, 117, 108, 108, 93]
  {
    assert ItemsText(FORMATTED, Item(Null, NoItem), 2) == [110, 117, 108, 108, 93];
    assert ItemsText(UNFORMATTED, Item(Null, NoItem), 2) == [110, 117, 108, 108, 93];
  }
}
