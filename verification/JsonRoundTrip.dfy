/** Parsing undoes printing, in every layout, exactly within the nesting limit. */
module JsonRoundTrip {
  import opened Bytes
  import opened Utf8Core
  import opened JsonTree
  import opened JsonParse

  // ---------------------------------------------------------------------------------------------
  // Whitespace

  ghost predicate White(w: seq<byte>) { forall i :: 0 <= i < |w| ==> w[i] <= 32 }

  ghost predicate WhiteStyle(st: Style) { White(st.space) && White(st.newline) && White(st.tab) }

  lemma {:induction false} SkipsWhite(w: seq<byte>, s: seq<byte>)
    requires White(w) && Terminated(s)
    ensures Terminated(w + s) && SkipWhitespace(w + s) == SkipWhitespace(s)
  {
    if w == [] {
      assert w + s == s;
    } else {
      SkipsWhite(w[1..], s);
      TailOfConcat(w, s);
    }
  }

  /** Whitespace in front of a visible byte. */
  lemma SkipsTo(w: seq<byte>, s: seq<byte>)
    requires White(w) && Terminated(s) && s[0] > 32
    ensures Terminated(w + s) && SkipWhitespace(w + s) == s
  {
    SkipsWhite(w, s);
  }

  lemma {:induction false} TabsAreWhite(st: Style, n: nat)
    requires WhiteStyle(st)
    ensures White(Tabs(st, n))
  {
    if n > 0 { TabsAreWhite(st, n - 1); }
  }

  // ---------------------------------------------------------------------------------------------
  // Strings

  lemma EscapeByteShape(b: byte)
    requires b != 0
    ensures var e := EscapeByte(b);
      || (|e| == 1 && e[0] == b && b >= 32 && b != QUOTE && b != BACKSLASH)
      || (|e| == 2 && e[0] == BACKSLASH && SimpleEscape(e[1]) == Some(b))
      || (|e| == 6 && e[0] == BACKSLASH && e[1] == 117 && Hex4(e[2..6]) == b && b < 32)
  {
    if |EscapeByte(b)| == 6 {
      HexOfControl(b);
      assert EscapeByte(b)[2..6] == [48, 48, HexDigit(b / 16), HexDigit(b % 16)];
    }
  }

  lemma HexOfControl(b: byte)
    requires b < 32
    ensures Hex4([48, 48, HexDigit(b / 16), HexDigit(b % 16)]) == b
  {
  }

  /** The scan steps over one escaped byte. */
  lemma ScanOne(b: byte, s: seq<byte>)
    requires b != 0
    ensures LiteralLength(EscapeByte(b) + s) == Further(|EscapeByte(b)|, LiteralLength(s))
  {
    var e := EscapeByte(b);
    EscapeByteShape(b);
    if |e| == 1 {
      ScanPlain(b, s);
    } else if |e| == 2 {
      assert e == [BACKSLASH, e[1]];
      ScanPair(e[1], s);
    } else {
      ScanUnicode(e, s);
    }
    hide LiteralLength;
  }

  lemma ScanPlain(b: byte, s: seq<byte>)
    requires b != QUOTE && b != BACKSLASH
    ensures LiteralLength([b] + s) == Further(1, LiteralLength(s))
  {
    CutConcat([b], s);
  }

  lemma ScanPair(c: byte, s: seq<byte>)
    ensures LiteralLength([BACKSLASH, c] + s) == Further(2, LiteralLength(s))
  {
    CutConcat([BACKSLASH, c], s);
  }

  lemma ScanUnicode(e: seq<byte>, s: seq<byte>)
    requires |e| == 6 && e[0] == BACKSLASH
    requires forall i :: 2 <= i < 6 ==> e[i] != QUOTE && e[i] != BACKSLASH
    ensures LiteralLength(e + s) == Further(6, LiteralLength(s))
  {
    hide LiteralLength;
    var s5 := [e[5]] + s;
    var s4 := [e[4]] + s5;
    var s3 := [e[3]] + s4;
    ScanPlain(e[5], s);
    ScanPlain(e[4], s5);
    ScanPlain(e[3], s4);
    ScanPlain(e[2], s3);
    ScanPair(e[1], [e[2]] + s3);
    assert e + s == [BACKSLASH, e[1]] + ([e[2]] + s3);
  }

  lemma {:induction false} ScanEscaped(t: seq<byte>, s: seq<byte>)
    requires NulFree(t) && s != [] && s[0] == QUOTE
    ensures LiteralLength(Escape(t) + s) == Some(|Escape(t)|)
  {
    hide LiteralLength, EscapeByte;
    if t == [] {
      assert Escape(t) + s == s;
      ScanQuote(s);
    } else {
      ScanEscaped(t[1..], s);
      ScanOne(t[0], Escape(t[1..]) + s);
      Assoc(EscapeByte(t[0]), Escape(t[1..]), s);
    }
  }

  lemma ScanQuote(s: seq<byte>)
    requires s != [] && s[0] == QUOTE
    ensures LiteralLength(s) == Some(0)
  {
  }

  /** The decoder turns one escaped byte back. */
  lemma DecodeOne(b: byte, s: seq<byte>, n: nat)
    requires b != 0 && n < |s|
    ensures Decode(EscapeByte(b) + s, |EscapeByte(b)| + n) == Prefixed([b], Decode(s, n))
  {
    EscapeByteShape(b);
    var e := EscapeByte(b);
    hide EscapeByte, Hex4;
    CutConcat(e, s);
    if |e| == 6 {
      assert (e + s)[2..6] == e[2..6];
      EncodeAscii(b);
      hide Encode;
    } else if |e| == 2 {
      DecodeNothing(s);
    }
  }

  lemma EncodeAscii(b: byte)
    requires b < 0x80
    ensures Encode(b) == [b]
  {
  }

  lemma {:induction false} DecodeEscaped(t: seq<byte>, s: seq<byte>)
    requires NulFree(t) && s != []
    ensures Decode(Escape(t) + s, |Escape(t)|) == Some(t)
  {
    hide Decode, EscapeByte;
    if t == [] {
      assert Escape(t) + s == s;
      DecodeNothing(s);
    } else {
      DecodeEscaped(t[1..], s);
      DecodeOne(t[0], Escape(t[1..]) + s, |Escape(t[1..])|);
      Assoc(EscapeByte(t[0]), Escape(t[1..]), s);
      assert [t[0]] + t[1..] == t;
    }
  }

  /** A printed string parses back to itself. */
  lemma StringRoundTrip(t: seq<byte>, rest: seq<byte>)
    requires NulFree(t) && Terminated(rest)
    ensures Terminated(Quoted(t) + rest) && ParseString(Quoted(t) + rest) == Got(t, rest)
  {
    hide Escape, LiteralLength, Decode, CString;
    var s := Quoted(t) + rest;
    var tail := Escape(t) + ([QUOTE] + rest);
    Assoc(Escape(t), [QUOTE], rest);
    Assoc([QUOTE], Escape(t) + [QUOTE], rest);
    assert s == [QUOTE] + tail;
    CutConcat([QUOTE], tail);
    ScanEscaped(t, [QUOTE] + rest);
    DecodeEscaped(t, [QUOTE] + rest);
    CStringOfNulFree(t, []);
    assert tail[|Escape(t)| + 1..] == rest;
  }

  // ---------------------------------------------------------------------------------------------
  // Numbers

  lemma {:induction false} RunOfNumber(l: seq<byte>, rest: seq<byte>, limit: nat)
    requires forall i :: 0 <= i < |l| ==> IsNumberChar(l[i])
    requires |l| <= limit && rest != [] && !IsNumberChar(rest[0])
    ensures NumberRun(l + rest, limit) == |l|
    decreases limit
  {
    if l == [] {
      assert l + rest == rest;
    } else {
      TailOfConcat(l, rest);
      RunOfNumber(l[1..], rest, limit - 1);
    }
  }

  lemma NumberRoundTrip(l: seq<byte>, rest: seq<byte>)
    requires IsNumberText(l) && Terminated(rest) && !IsNumberChar(rest[0])
    ensures Terminated(l + rest) && ParseNumber(l + rest) == Got(Number(l), rest)
  {
    hide StrtodLength, NumberRun;
    RunOfNumber(l, rest, NUMBER_LIMIT);
    CutConcat(l, rest);
    assert l[..|l|] == l;
  }

  // ---------------------------------------------------------------------------------------------
  // Values

  /** First byte of a printed value. */
  function Lead(j: Json): byte
    requires Printable(j)
  {
    match j
    case Null => 110
    case False => 102
    case True => 116
    case Number(l) => l[0]
    case String(_) => QUOTE
    case Array(_) => LBRACKET
    case Object(_) => LBRACE
  }

  lemma LeadIsFirst(st: Style, j: Json, depth: nat)
    requires Printable(j)
    ensures Text(st, j, depth) != [] && Text(st, j, depth)[0] == Lead(j)
    ensures Lead(j) > 32 && Lead(j) != RBRACKET && Lead(j) != RBRACE
  {
    hide ItemsText, MembersText, Escape, StrtodLength;
  }

  /** What may follow a printed value: the parser must see where a number ends. */
  predicate Delimited(s: seq<byte>) { Terminated(s) && !IsNumberChar(s[0]) }

  function Expected(j: Json, depth: nat, rest: seq<byte>): Parsed<Json> {
    if depth + Nesting(j) <= NESTING_LIMIT then Got(j, rest) else Fail
  }

  lemma ValueDispatch(s: seq<byte>, depth: nat)
    requires Terminated(s)
    ensures s[0] == LBRACKET ==> ParseValue(s, depth) == ParseArray(s, depth)
    ensures s[0] == LBRACE ==> ParseValue(s, depth) == ParseObject(s, depth)
    ensures s[0] == MINUS || IsDigit(s[0]) ==> ParseValue(s, depth) == ParseNumber(s)
    ensures s[0] == QUOTE && ParseString(s).Got?
      ==> ParseValue(s, depth) == Got(String(ParseString(s).value), ParseString(s).rest)
  {
  }

  lemma LiteralRoundTrip(j: Json, st: Style, pd: nat, rest: seq<byte>, depth: nat)
    requires j.Null? || j.False? || j.True?
    requires Terminated(rest)
    ensures Terminated(Text(st, j, pd) + rest)
    ensures ParseValue(Text(st, j, pd) + rest, depth) == Got(j, rest)
  {
    hide ParseString, ParseNumber, ParseArray, ParseObject;
    var t := Text(st, j, pd);
    CutConcat(t, rest);
    assert t <= t + rest && (t + rest)[0] == t[0];
  }

  lemma LeadOfNumber(l: seq<byte>)
    requires IsNumberText(l)
    ensures l != [] && (l[0] == MINUS || IsDigit(l[0]))
  {
    hide StrtodLength;
  }

  lemma {:induction false} ValueRoundTrip(st: Style, j: Json, pd: nat, rest: seq<byte>, depth: nat)
    requires WhiteStyle(st) && Printable(j) && Delimited(rest) && depth <= NESTING_LIMIT
    ensures Terminated(Text(st, j, pd) + rest)
    ensures ParseValue(Text(st, j, pd) + rest, depth) == Expected(j, depth, rest)
    decreases j, 0
  {
    hide ParseString, Quoted, ParseNumber, IsNumberText, ParseValue, WhiteStyle;
    match j
    case Number(l) =>
      NumberRoundTrip(l, rest);
      LeadOfNumber(l);
      ValueDispatch(l + rest, depth);
    case String(t) =>
      StringRoundTrip(t, rest);
      LeadIsFirst(st, j, pd);
      ValueDispatch(Quoted(t) + rest, depth);
    case Array(NoItem) => EmptyArrayRoundTrip(st, pd, rest, depth);
    case Array(items) => ArrayRoundTrip(st, items, pd, rest, depth);
    case Object(NoMember) => EmptyObjectRoundTrip(st, pd, rest, depth);
    case Object(members) => ObjectRoundTrip(st, members, pd, rest, depth);
    case _ => LiteralRoundTrip(j, st, pd, rest, depth);
  }

  /** An array whose first item, or whose bracket, follows the opening one directly. */
  lemma OpenArray(body: seq<byte>, depth: nat)
    requires Terminated(body) && body[0] > 32
    ensures var s := [LBRACKET] + body;
      && Terminated(s)
      && (depth >= NESTING_LIMIT ==> ParseValue(s, depth) == Fail)
      && (depth < NESTING_LIMIT && body[0] == RBRACKET ==> ParseValue(s, depth) == Got(Array(NoItem), body[1..]))
      && (depth < NESTING_LIMIT && body[0] != RBRACKET ==>
          ParseValue(s, depth)
          == (match ParseItems(body, depth + 1) case Fail => Fail case Got(items, rest) => Got(Array(items), rest)))
  {
    CutConcat([LBRACKET], body);
    ValueDispatch([LBRACKET] + body, depth);
    hide ParseValue, ParseItems;
  }

  lemma ArrayText(st: Style, items: Items, pd: nat, rest: seq<byte>)
    ensures Text(st, Array(items), pd) + rest == [LBRACKET] + (ItemsText(st, items, pd + 1) + rest)
  {
    hide ItemsText;
    Assoc([LBRACKET], ItemsText(st, items, pd + 1), rest);
  }

  lemma EmptyArrayRoundTrip(st: Style, pd: nat, rest: seq<byte>, depth: nat)
    requires Terminated(rest) && depth <= NESTING_LIMIT
    ensures var s := Text(st, Array(NoItem), pd) + rest;
      Terminated(s) && ParseValue(s, depth) == Expected(Array(NoItem), depth, rest)
  {
    hide ParseValue, ParseItems;
    ArrayText(st, NoItem, pd, rest);
    CutConcat([RBRACKET], rest);
    OpenArray([RBRACKET] + rest, depth);
  }

  lemma {:induction false} ArrayRoundTrip(st: Style, items: Items, pd: nat, rest: seq<byte>, depth: nat)
    requires items.Item? && WhiteStyle(st) && PrintableItems(items) && Terminated(rest) && depth <= NESTING_LIMIT
    ensures var s := Text(st, Array(items), pd) + rest;
      Terminated(s) && ParseValue(s, depth) == Expected(Array(items), depth, rest)
    decreases items, 2
  {
    hide Text, ItemsText, ParseValue, WhiteStyle, ParseItems, PrintableItems;
    var body := ItemsText(st, items, pd + 1) + rest;
    ArrayText(st, items, pd, rest);
    ItemsLead(st, items, pd + 1, rest);
    assert body[|body| - 1] == rest[|rest| - 1];
    if depth < NESTING_LIMIT { ItemsRoundTrip(st, items, pd + 1, rest, depth + 1); }
    OpenArray(body, depth);
  }

  lemma ItemsLead(st: Style, items: Items, pd: nat, rest: seq<byte>)
    requires items.Item? && PrintableItems(items)
    ensures var body := ItemsText(st, items, pd) + rest; body != [] && body[0] == Lead(items.value)
    ensures Lead(items.value) > 32 && Lead(items.value) != RBRACKET
  {
    hide Text, ItemsRest;
    LeadIsFirst(st, items.value, pd);
  }

  function ExpectedItems(items: Items, depth: nat, rest: seq<byte>): Parsed<Items> {
    if depth + ItemsNesting(items) <= NESTING_LIMIT then Got(items, rest) else Fail
  }

  lemma {:induction false} ItemsRoundTrip(st: Style, items: Items, pd: nat, rest: seq<byte>, depth: nat)
    requires items.Item? && WhiteStyle(st) && PrintableItems(items) && Terminated(rest) && depth <= NESTING_LIMIT
    ensures var s := ItemsText(st, items, pd) + rest;
      Terminated(s) && ParseItems(s, depth) == ExpectedItems(items, depth, rest)
    decreases items, 1
  {
    hide ParseValue, WhiteStyle, Text;
    var Item(v, next) := items;
    var more := ItemsRest(st, next, pd) + rest;
    Assoc(Text(st, v, pd), ItemsRest(st, next, pd), rest);
    if next.NoItem? {
      assert more == [RBRACKET] + rest;
      CutConcat([RBRACKET], rest);
      ValueRoundTrip(st, v, pd, more, depth);
    } else {
      hide ItemsText;
      var after := ItemsText(st, next, pd) + rest;
      ItemsComma(st, next, pd, rest);
      ItemsRoundTrip(st, next, pd, rest, depth);
      ItemsSpace(st, next, pd, rest);
      ValueRoundTrip(st, v, pd, more, depth);
    }
  }

  lemma ItemsComma(st: Style, next: Items, pd: nat, rest: seq<byte>)
    requires next.Item?
    ensures ItemsRest(st, next, pd) + rest == [COMMA] + (st.space + (ItemsText(st, next, pd) + rest))
  {
    hide Text;
    Assoc([COMMA], st.space + ItemsText(st, next, pd), rest);
    Assoc(st.space, ItemsText(st, next, pd), rest);
  }

  lemma ItemsSpace(st: Style, next: Items, pd: nat, rest: seq<byte>)
    requires WhiteStyle(st) && next.Item? && PrintableItems(next) && Terminated(rest)
    ensures var after := ItemsText(st, next, pd) + rest;
      && Terminated(after)
      && Terminated(st.space + after)
      && SkipWhitespace(st.space + after) == after
  {
    hide ItemsText;
    ItemsLead(st, next, pd, rest);
    var after := ItemsText(st, next, pd) + rest;
    assert after[|after| - 1] == rest[|rest| - 1];
    SkipsTo(st.space, after);
  }

  lemma OpenObject(w: seq<byte>, body: seq<byte>, depth: nat)
    requires White(w) && Terminated(body)
    ensures var s := [LBRACE] + (w + body);
      && Terminated(s)
      && (depth >= NESTING_LIMIT ==> ParseValue(s, depth) == Fail)
      && (var t := SkipWhitespace(body);
          && (depth < NESTING_LIMIT && t[0] == RBRACE ==> ParseValue(s, depth) == Got(Object(NoMember), t[1..]))
          && (depth < NESTING_LIMIT && t[0] != RBRACE ==>
              ParseValue(s, depth)
              == (match ParseMembers(t, depth + 1) case Fail => Fail case Got(ms, rest) => Got(Object(ms), rest))))
  {
    SkipsWhite(w, body);
    CutConcat([LBRACE], w + body);
    ValueDispatch([LBRACE] + (w + body), depth);
    hide ParseValue, ParseMembers, SkipWhitespace;
  }

  lemma ClosingParses(st: Style, pd: nat, rest: seq<byte>)
    requires WhiteStyle(st) && Terminated(rest)
    ensures var s := Closing(st, pd) + rest; Terminated(s) && SkipWhitespace(s) == [RBRACE] + rest
  {
    var n := if pd == 0 then 0 else pd - 1;
    TabsAreWhite(st, n);
    Assoc(Tabs(st, n), [RBRACE], rest);
    SkipsTo(Tabs(st, n), [RBRACE] + rest);
  }

  lemma ObjectText(st: Style, ms: Members, pd: nat, rest: seq<byte>)
    ensures Text(st, Object(ms), pd) + rest == [LBRACE] + (st.newline + (MembersText(st, ms, pd + 1) + rest))
  {
    hide MembersText;
    Assoc([LBRACE], st.newline + MembersText(st, ms, pd + 1), rest);
    Assoc(st.newline, MembersText(st, ms, pd + 1), rest);
  }

  lemma EmptyObjectRoundTrip(st: Style, pd: nat, rest: seq<byte>, depth: nat)
    requires WhiteStyle(st) && Terminated(rest) && depth <= NESTING_LIMIT
    ensures var s := Text(st, Object(NoMember), pd) + rest;
      Terminated(s) && ParseValue(s, depth) == Expected(Object(NoMember), depth, rest)
  {
    hide ParseValue, ParseMembers, Closing, SkipWhitespace;
    ObjectText(st, NoMember, pd, rest);
    ClosingParses(st, pd + 1, rest);
    CutConcat([RBRACE], rest);
    OpenObject(st.newline, Closing(st, pd + 1) + rest, depth);
  }

  lemma {:induction false} ObjectRoundTrip(st: Style, ms: Members, pd: nat, rest: seq<byte>, depth: nat)
    requires ms.Member? && WhiteStyle(st) && PrintableMembers(ms) && Terminated(rest) && depth <= NESTING_LIMIT
    ensures var s := Text(st, Object(ms), pd) + rest;
      Terminated(s) && ParseValue(s, depth) == Expected(Object(ms), depth, rest)
    decreases ms, 2
  {
    hide Text, MembersText, ParseValue, ParseMembers, PrintableMembers, SkipWhitespace, FromKey;
    ObjectText(st, ms, pd, rest);
    MembersLead(st, ms, pd + 1, rest);
    if depth < NESTING_LIMIT { MembersRoundTrip(st, ms, pd + 1, rest, depth + 1); }
    OpenObject(st.newline, MembersText(st, ms, pd + 1) + rest, depth);
  }

  /** The text of the members from the first key on. */
  function FromKey(st: Style, ms: Members, pd: nat, rest: seq<byte>): seq<byte>
    requires ms.Member?
  {
    Quoted(ms.key) + ([COLON] + (st.tab + (Text(st, ms.value, pd) + (MembersRest(st, ms.next, pd) + rest))))
  }

  lemma MembersRegroup(st: Style, ms: Members, pd: nat, rest: seq<byte>)
    requires ms.Member?
    ensures MembersText(st, ms, pd) + rest == Tabs(st, pd) + FromKey(st, ms, pd, rest)
  {
    hide Text, MembersRest, Quoted, Tabs;
    var Member(k, v, next) := ms;
    var more := MembersRest(st, next, pd);
    Assoc(MemberText(st, k, v, pd), more, rest);
    Assoc(Tabs(st, pd), Quoted(k) + ([COLON] + (st.tab + Text(st, v, pd))), more + rest);
    Assoc(Quoted(k), [COLON] + (st.tab + Text(st, v, pd)), more + rest);
    Assoc([COLON], st.tab + Text(st, v, pd), more + rest);
    Assoc(st.tab, Text(st, v, pd), more + rest);
  }

  lemma MembersLead(st: Style, ms: Members, pd: nat, rest: seq<byte>)
    requires ms.Member? && WhiteStyle(st) && Terminated(rest)
    ensures var s := MembersText(st, ms, pd) + rest;
      && Terminated(s)
      && SkipWhitespace(s) == FromKey(st, ms, pd, rest)
      && FromKey(st, ms, pd, rest)[0] == QUOTE
  {
    MembersRegroup(st, ms, pd, rest);
    var t := FromKey(st, ms, pd, rest);
    assert t[0] == QUOTE && Terminated(t) by {
      hide Text, MembersRest, Escape;
      assert t[|t| - 1] == rest[|rest| - 1];
    }
    hide FromKey, MembersText;
    TabsAreWhite(st, pd);
    SkipsTo(Tabs(st, pd), t);
  }

  function ExpectedMembers(ms: Members, depth: nat, rest: seq<byte>): Parsed<Members> {
    if depth + MembersNesting(ms) <= NESTING_LIMIT then Got(ms, rest) else Fail
  }

  /** A printed key and its colon. */
  lemma KeyRoundTrip(k: seq<byte>, w: seq<byte>, s: seq<byte>)
    requires NulFree(k) && White(w) && Terminated(s) && s[0] > 32
    ensures var t := Quoted(k) + ([COLON] + (w + s)); Terminated(t) && ParseKey(t) == Got(k, s)
  {
    hide Quoted, ParseString;
    SkipsTo(w, s);
    CutConcat([COLON], w + s);
    StringRoundTrip(k, [COLON] + (w + s));
  }

  lemma {:induction false} MembersRoundTrip(st: Style, ms: Members, pd: nat, rest: seq<byte>, depth: nat)
    requires ms.Member? && WhiteStyle(st) && PrintableMembers(ms) && Terminated(rest) && depth <= NESTING_LIMIT
    ensures var s := FromKey(st, ms, pd, rest);
      Terminated(s) && ParseMembers(s, depth) == ExpectedMembers(ms, depth, rest)
    decreases ms, 1
  {
    hide ParseValue, Text, ParseKey, MembersRest, SkipWhitespace;
    var Member(k, v, next) := ms;
    var more := MembersRest(st, next, pd) + rest;
    AfterMember(st, next, pd, rest);
    ValueRoundTrip(st, v, pd, more, depth);
    LeadIsFirst(st, v, pd);
    KeyRoundTrip(k, st.tab, Text(st, v, pd) + more);
    if next.Member? {
      MembersRoundTrip(st, next, pd, rest, depth);
    } else {
      CutConcat([RBRACE], rest);
      assert SkipWhitespace(more)[1..] == rest;
      assert MembersNesting(ms) == Nesting(v);
    }
  }

  /** After a member's value: the closing brace, or a comma and the next key. */
  lemma AfterMember(st: Style, next: Members, pd: nat, rest: seq<byte>)
    requires WhiteStyle(st) && Terminated(rest)
    ensures var more := MembersRest(st, next, pd) + rest;
      && Delimited(more)
      && (next.NoMember? ==> SkipWhitespace(more) == [RBRACE] + rest)
      && (next.Member? ==>
          var t := SkipWhitespace(more);
          t[0] == COMMA && Terminated(t[1..]) && SkipWhitespace(t[1..]) == FromKey(st, next, pd, rest))
  {
    var more := MembersRest(st, next, pd) + rest;
    if next.NoMember? {
      Assoc(st.newline, Closing(st, pd), rest);
      ClosingParses(st, pd, rest);
      SkipsWhite(st.newline, Closing(st, pd) + rest);
      assert more[0] <= 32 || more == [RBRACE] + rest;
    } else {
      MembersComma(st, next, pd, rest);
      hide MembersRest;
      var s := MembersText(st, next, pd) + rest;
      MembersLead(st, next, pd, rest);
      SkipsWhite(st.newline, s);
      CutConcat([COMMA], st.newline + s);
      assert more == [COMMA] + (st.newline + s);
      assert SkipWhitespace(more)[1..] == st.newline + s;
    }
  }

  lemma MembersComma(st: Style, next: Members, pd: nat, rest: seq<byte>)
    requires next.Member?
    ensures MembersRest(st, next, pd) + rest == [COMMA] + (st.newline + (MembersText(st, next, pd) + rest))
  {
    hide MemberText;
    Assoc([COMMA], st.newline + MembersText(st, next, pd), rest);
    Assoc(st.newline, MembersText(st, next, pd), rest);
  }

  // ---------------------------------------------------------------------------------------------
  // Whole documents

  lemma {:induction false} TextIsNulFree(st: Style, j: Json, depth: nat)
    requires Printable(j) && NulFree(st.space) && NulFree(st.newline) && NulFree(st.tab)
    ensures NulFree(Text(st, j, depth))
    decreases j, 0
  {
    match j
    case Number(l) =>
    case String(t) => QuotedIsNulFree(t);
    case Array(items) => ItemsAreNulFree(st, items, depth + 1);
    case Object(ms) => MembersAreNulFree(st, ms, depth + 1);
    case _ =>
  }

  lemma {:induction false} EscapeIsNulFree(t: seq<byte>)
    requires NulFree(t)
    ensures NulFree(Escape(t))
  {
    if t != [] { EscapeIsNulFree(t[1..]); }
  }

  lemma QuotedIsNulFree(t: seq<byte>)
    requires NulFree(t)
    ensures NulFree(Quoted(t))
  {
    EscapeIsNulFree(t);
    hide Escape;
  }

  lemma {:induction false} ItemsAreNulFree(st: Style, items: Items, depth: nat)
    requires PrintableItems(items) && NulFree(st.space) && NulFree(st.newline) && NulFree(st.tab)
    ensures NulFree(ItemsText(st, items, depth)) && NulFree(ItemsRest(st, items, depth))
    decreases items, 0
  {
    if items.Item? {
      TextIsNulFree(st, items.value, depth);
      ItemsAreNulFree(st, items.next, depth);
      hide Text;
    }
  }

  lemma {:induction false} TabsAreNulFree(st: Style, n: nat)
    requires NulFree(st.tab)
    ensures NulFree(Tabs(st, n))
  {
    if n > 0 { TabsAreNulFree(st, n - 1); }
  }

  lemma {:induction false} MembersAreNulFree(st: Style, ms: Members, depth: nat)
    requires PrintableMembers(ms) && NulFree(st.space) && NulFree(st.newline) && NulFree(st.tab)
    ensures NulFree(MembersText(st, ms, depth)) && NulFree(MembersRest(st, ms, depth))
    decreases ms, 0
  {
    TabsAreNulFree(st, if depth == 0 then 0 else depth - 1);
    if ms.Member? {
      MembersAreNulFree(st, ms.next, depth);
      MemberIsNulFree(st, ms.key, ms.value, depth);
      hide MemberText;
    }
  }

  lemma {:induction false} MemberIsNulFree(st: Style, k: seq<byte>, v: Json, depth: nat)
    requires NulFree(k) && Printable(v) && NulFree(st.space) && NulFree(st.newline) && NulFree(st.tab)
    ensures NulFree(MemberText(st, k, v, depth))
    decreases v, 1
  {
    TextIsNulFree(st, v, depth);
    QuotedIsNulFree(k);
    TabsAreNulFree(st, depth);
    hide Text, Quoted, Tabs;
  }

  /** The layouts of the library, with or without the deletion of newlines and tabs. */
  ghost predicate Layout(st: Style) { st == FORMATTED || st == UNFORMATTED || st == STRIPPED }

  /** Parsing the printed text gives the tree back exactly when it nests at most 1000 deep. */
  lemma PrintParseRoundTrip(st: Style, j: Json, requireNullTerminated: bool)
    requires Layout(st) && Printable(j)
    ensures Nesting(j) <= NESTING_LIMIT ==> ParseWithOpts(Text(st, j, 0), requireNullTerminated) == Some(j)
    ensures Nesting(j) > NESTING_LIMIT ==> ParseWithOpts(Text(st, j, 0), requireNullTerminated) == None
  {
    hide Text, ParseValue;
    var text := Text(st, j, 0);
    TextIsNulFree(st, j, 0);
    CStringOfNulFree(text, []);
    ValueRoundTrip(st, j, 0, [0], 0);
    LeadIsFirst(st, j, 0);
    assert SkipWhitespace(text + [0]) == text + [0];
  }
}
