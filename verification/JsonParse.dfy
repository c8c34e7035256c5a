/**
 * The recursive-descent parser as a function of the text that is left. The text is a C string with
 * its terminator, so the parser always sees at least the final NUL.
 */
module JsonParse {
  import opened Bytes
  import opened Utf8Core
  import opened JsonTree

  const NESTING_LIMIT: nat := 1000

  datatype Parsed<+T> = Fail | Got(value: T, rest: seq<byte>)

  predicate Terminated(s: seq<byte>) { |s| > 0 && s[|s| - 1] == 0 }

  /** `buffer_skip_whitespace`: every byte up to 32 is skipped, but never the last one. */
  function SkipWhitespace(s: seq<byte>): (r: seq<byte>)
    requires Terminated(s)
    ensures Terminated(r) && |r| <= |s|
  {
    if |s| > 1 && s[0] <= 32 then SkipWhitespace(s[1..]) else s
  }

  // ---------------------------------------------------------------------------------------------
  // Strings

  /** First pass of `parse_string`: distance to the closing quote. */
  function LiteralLength(t: seq<byte>): (r: Option<nat>)
    ensures r.Some? ==> r.value < |t| && t[r.value] == QUOTE
  {
    if t == [] then None
    else if t[0] == QUOTE then Some(0)
    else if t[0] == BACKSLASH && |t| == 1 then None
    else
      var step := if t[0] == BACKSLASH then 2 else 1;
      match LiteralLength(t[step..])
      case None => None
      case Some(n) => Some(step + n)
  }

  /** A distance counted from `k` bytes further back. */
  function Further(k: nat, r: Option<nat>): Option<nat> {
    if r.Some? then Some(k + r.value) else None
  }

  function HexValue(b: byte): Option<nat> {
    if 48 <= b <= 57 then Some(b - 48)
    else if 65 <= b <= 70 then Some(b - 55)
    else if 97 <= b <= 102 then Some(b - 87)
    else None
  }

  /** `parse_hex4`: any bad digit makes the whole value 0. */
  function Hex4(s: seq<byte>): (r: nat)
    requires |s| >= 4
    ensures r < 0x10000
  {
    var a, b, c, d := HexValue(s[0]), HexValue(s[1]), HexValue(s[2]), HexValue(s[3]);
    if a == None || b == None || c == None || d == None then 0
    else Nibbles(a.value, b.value, c.value, d.value)
  }

  function Nibbles(a: nat, b: nat, c: nat, d: nat): nat {
    ((a * 16 + b) * 16 + c) * 16 + d
  }

  lemma NibblesJoin(x: nat)
    requires x < 0x10000
    ensures Nibbles(x / 0x1000, x / 0x100 % 16, x / 16 % 16, x % 16) == x
  {
    assert x / 0x100 == x / 16 / 16 && x / 0x1000 == x / 16 / 16 / 16;
  }

  /** A `\uXXXX` escape or surrogate pair: its code point and its length in the text. */
  datatype Literal = BadLiteral | Literal(cp: uint32, len: nat)

  /** `utf16_literal_to_utf8` on `n` remaining bytes of the literal. */
  function Utf16Literal(t: seq<byte>, n: nat): (r: Literal)
    requires n < |t|
    ensures r.Literal? ==> r.len <= n && (r.len == 6 || r.len == 12) && IsCodePointValid(r.cp)
    ensures r.Literal? && r.len == 6 ==> r.cp < 0x10000
  {
    if n < 6 then BadLiteral else
    var first := Hex4(t[2..6]);
    if 0xdc00 <= first <= 0xdfff then BadLiteral
    else if 0xd800 <= first <= 0xdbff then
      if n < 12 || t[6] != BACKSLASH || t[7] != 117 then BadLiteral else
      var second := Hex4(t[8..12]);
      if second < 0xdc00 || second > 0xdfff then BadLiteral
      else Literal(0x10000 + (first % 0x400) * 0x400 + second % 0x400, 12)
    else Literal(first, 6)
  }

  /** The byte a one-character escape stands for. */
  function SimpleEscape(c: byte): Option<byte> {
    if c == 98 then Some(8)
    else if c == 102 then Some(12)
    else if c == 110 then Some(NEWLINE)
    else if c == 114 then Some(13)
    else if c == 116 then Some(TAB)
    else if c == QUOTE || c == BACKSLASH || c == SLASH then Some(c)
    else None
  }

  function Prefixed(a: seq<byte>, r: Option<seq<byte>>): Option<seq<byte>> {
    if r.Some? then Some(a + r.value) else None
  }

  lemma PrefixedTwice(a: seq<byte>, b: seq<byte>, r: Option<seq<byte>>)
    ensures Prefixed(a, Prefixed(b, r)) == Prefixed(a + b, r)
  {
    if r.Some? { Assoc(a, b, r.value); }
  }

  /** Second pass of `parse_string` over the `n` bytes before the closing quote. */
  function Decode(t: seq<byte>, n: nat): Option<seq<byte>>
    requires n < |t|
  {
    if n == 0 then Some([])
    else if t[0] != BACKSLASH then Prefixed([t[0]], Decode(t[1..], n - 1))
    else if SimpleEscape(t[1]).Some? then
      Prefixed([SimpleEscape(t[1]).value], if n <= 2 then Some([]) else Decode(t[2..], n - 2))
    else if t[1] == 117 then
      match Utf16Literal(t, n)
      case BadLiteral => None
      case Literal(cp, len) => Prefixed(Encode(cp), Decode(t[len..], n - len))
    else None
  }

  lemma DecodeNothing(t: seq<byte>)
    requires t != []
    ensures Decode(t, 0) == Some([])
  {
  }

  /** `parse_string`; later readers see the result as a C string. */
  function ParseString(s: seq<byte>): (r: Parsed<seq<byte>>)
    requires Terminated(s)
    ensures r.Got? ==> Terminated(r.rest) && |r.rest| < |s| && NulFree(r.value)
  {
    if s[0] != QUOTE then Fail else
    var t := s[1..];
    match LiteralLength(t)
    case None => Fail
    case Some(n) =>
      match Decode(t, n)
      case None => Fail
      case Some(text) => Got(CString(text), t[n + 1..])
  }

  // ---------------------------------------------------------------------------------------------
  // Numbers

  /** The characters `parse_number` copies before it calls `strtod`. */
  function NumberRun(s: seq<byte>, limit: nat): (n: nat)
    ensures n <= |s| && n <= limit
    ensures forall i :: 0 <= i < n ==> IsNumberChar(s[i])
    decreases limit
  {
    if limit > 0 && s != [] && IsNumberChar(s[0]) then 1 + NumberRun(s[1..], limit - 1) else 0
  }

  function ParseNumber(s: seq<byte>): (r: Parsed<Json>)
    requires Terminated(s)
    ensures r.Got? ==> Terminated(r.rest) && |r.rest| < |s|
  {
    var run := s[..NumberRun(s, NUMBER_LIMIT)];
    var n := StrtodLength(run);
    if n == 0 then Fail else
    assert IsNumberChar(s[n - 1]);
    Got(Number(run[..n]), s[n..])
  }

  // ---------------------------------------------------------------------------------------------
  // Values

  function ParseValue(s: seq<byte>, depth: nat): (r: Parsed<Json>)
    requires Terminated(s)
    ensures r.Got? ==> Terminated(r.rest) && |r.rest| < |s|
    decreases |s|, 1
  {
    if NULL_TEXT <= s then Got(Null, s[4..])
    else if FALSE_TEXT <= s then Got(False, s[5..])
    else if TRUE_TEXT <= s then Got(True, s[4..])
    else if s[0] == QUOTE then
      match ParseString(s)
      case Fail => Fail
      case Got(t, rest) => Got(String(t), rest)
    else if s[0] == MINUS || IsDigit(s[0]) then ParseNumber(s)
    else if s[0] == LBRACKET then ParseArray(s, depth)
    else if s[0] == LBRACE then ParseObject(s, depth)
    else Fail
  }

  function ParseArray(s: seq<byte>, depth: nat): (r: Parsed<Json>)
    requires Terminated(s) && s[0] == LBRACKET
    ensures r.Got? ==> Terminated(r.rest) && |r.rest| < |s|
    decreases |s|, 0
  {
    if depth >= NESTING_LIMIT then Fail else
    var t := SkipWhitespace(s[1..]);
    if t[0] == RBRACKET then Got(Array(NoItem), t[1..]) else
    match ParseItems(t, depth + 1)
    case Fail => Fail
    case Got(items, rest) => Got(Array(items), rest)
  }

  function ParseItems(s: seq<byte>, depth: nat): (r: Parsed<Items>)
    requires Terminated(s)
    ensures r.Got? ==> Terminated(r.rest) && |r.rest| < |s|
    decreases |s|, 2
  {
    match ParseValue(s, depth)
    case Fail => Fail
    case Got(v, rest) =>
      var t := SkipWhitespace(rest);
      if t[0] == COMMA then
        match ParseItems(SkipWhitespace(t[1..]), depth)
        case Fail => Fail
        case Got(items, rest') => Got(Item(v, items), rest')
      else if t[0] == RBRACKET then Got(Item(v, NoItem), t[1..])
      else Fail
  }

  function ParseObject(s: seq<byte>, depth: nat): (r: Parsed<Json>)
    requires Terminated(s) && s[0] == LBRACE
    ensures r.Got? ==> Terminated(r.rest) && |r.rest| < |s|
    decreases |s|, 0
  {
    if depth >= NESTING_LIMIT then Fail else
    var t := SkipWhitespace(s[1..]);
    if t[0] == RBRACE then Got(Object(NoMember), t[1..]) else
    match ParseMembers(t, depth + 1)
    case Fail => Fail
    case Got(members, rest) => Got(Object(members), rest)
  }

  /** A key, its colon and what follows, up to the first byte of the value. */
  function ParseKey(s: seq<byte>): (r: Parsed<seq<byte>>)
    requires Terminated(s)
    ensures r.Got? ==> Terminated(r.rest) && |r.rest| < |s| && NulFree(r.value)
  {
    match ParseString(s)
    case Fail => Fail
    case Got(k, rest) =>
      var t := SkipWhitespace(rest);
      if t[0] != COLON then Fail else Got(k, SkipWhitespace(t[1..]))
  }

  function ParseMembers(s: seq<byte>, depth: nat): (r: Parsed<Members>)
    requires Terminated(s)
    ensures r.Got? ==> Terminated(r.rest) && |r.rest| < |s|
    decreases |s|, 2
  {
    match ParseKey(s)
    case Fail => Fail
    case Got(k, u) =>
      match ParseValue(u, depth)
      case Fail => Fail
      case Got(v, rest) =>
        var t := SkipWhitespace(rest);
        if t[0] == COMMA then
          match ParseMembers(SkipWhitespace(t[1..]), depth)
          case Fail => Fail
          case Got(members, rest') => Got(Member(k, v, members), rest')
        else if t[0] == RBRACE then Got(Member(k, v, NoMember), t[1..])
        else Fail
  }

  /** `cJSON_ParseWithOpts`: the tree and the text after it, or failure. */
  function ParseWithOpts(value: seq<byte>, requireNullTerminated: bool): Option<Json> {
    var s := CString(value) + [0];
    match ParseValue(SkipWhitespace(s), 0)
    case Fail => None
    case Got(j, rest) =>
      if requireNullTerminated && SkipWhitespace(rest)[0] != 0 then None else Some(j)
  }

  /** `cJSON_Parse` */
  function Parse(value: seq<byte>): Option<Json> { ParseWithOpts(value, false) }
}
