/** The texts the parser accepts, as a grammar: trees with their blanks, spelled out in front of what follows. */
module JsonSyntax {
  import opened Bytes
  import opened JsonTree
  import opened JsonParse
  import opened JsonRoundTrip
  import opened Utf8Core
  import R = JsonReparse

  datatype Syntax =
    | Word(j: Json)
    | Num(lexeme: seq<byte>)
    | Str(literal: seq<byte>)
    | Arr(open: seq<byte>, elements: Elements)
    | Obj(open: seq<byte>, entries: Entries)

  /** A value, the blanks after it, and behind a comma the blanks before the next one. */
  datatype Elements =
    | NoElement
    | Element(value: Syntax, after: seq<byte>, before: seq<byte>, next: Elements)

  /** A key, the blanks around its colon, and the rest as for an element. */
  datatype Entries =
    | NoEntry
    | Entry(
        key: seq<byte>, left: seq<byte>, right: seq<byte>,
        value: Syntax, after: seq<byte>, before: seq<byte>, next: Entries)

  function WordText(j: Json): seq<byte> {
    match j
    case Null => [110, 117, 108, 108]
    case True => [116, 114, 117, 101]
    case False => [102, 97, 108, 115, 101]
    case _ => []
  }

  /** The text of a value, and what follows it. */
  function Written(x: Syntax, rest: seq<byte>): seq<byte>
    decreases x
  {
    match x
    case Word(j) => WordText(j) + rest
    case Num(l) => l + rest
    case Str(lit) => StrWritten(lit, rest)
    case Arr(open, es) => [91] + (open + ElementsWritten(es, rest))
    case Obj(open, es) => [123] + (open + EntriesWritten(es, rest))
  }

  function StrWritten(lit: seq<byte>, rest: seq<byte>): seq<byte> { [34] + (lit + ([34] + rest)) }

  function ElementsWritten(es: Elements, rest: seq<byte>): seq<byte>
    decreases es, 0
  {
    match es
    case NoElement => [93] + rest
    case Element(v, after, before, next) =>
      Written(v, after + if next.NoElement? then [93] + rest else [44] + (before + ElementsWritten(next, rest)))
  }

  function EntriesWritten(es: Entries, rest: seq<byte>): seq<byte>
    decreases es, 0
  {
    match es
    case NoEntry => [125] + rest
    case Entry(key, left, right, v, after, before, next) =>
      StrWritten(key, left + ([58] + (right + Written(v,
        after + if next.NoEntry? then [125] + rest else [44] + (before + EntriesWritten(next, rest))))))
  }

  /** What stands between two quotes: the closing one is the first that is not escaped, and the escapes are known. */
  predicate IsLiteral(lit: seq<byte>) {
    LiteralLength(lit + [34]) == Some(|lit|) && Decode(lit + [34], |lit|).Some?
  }

  function LiteralText(lit: seq<byte>): seq<byte>
    requires IsLiteral(lit)
  {
    CString(Decode(lit + [34], |lit|).value)
  }

  ghost predicate IsSyntax(x: Syntax) {
    match x
    case Word(j) => j.Null? || j.True? || j.False?
    case Num(l) => IsNumberText(l)
    case Str(lit) => IsLiteral(lit)
    case Arr(open, es) => White(open) && AreElements(es)
    case Obj(open, es) => White(open) && AreEntries(es)
  }

  ghost predicate AreElements(es: Elements) {
    es.Element? ==> IsSyntax(es.value) && White(es.after) && White(es.before) && AreElements(es.next)
  }

  ghost predicate AreEntries(es: Entries) {
    es.Entry? ==>
      && IsLiteral(es.key) && White(es.left) && White(es.right)
      && IsSyntax(es.value) && White(es.after) && White(es.before) && AreEntries(es.next)
  }

  ghost function TreeOf(x: Syntax): Json
    requires IsSyntax(x)
  {
    match x
    case Word(j) => j
    case Num(l) => Number(l)
    case Str(lit) => String(LiteralText(lit))
    case Arr(_, es) => Array(ItemsOf(es))
    case Obj(_, es) => Object(MembersOf(es))
  }

  ghost function ItemsOf(es: Elements): Items
    requires AreElements(es)
  {
    if es.NoElement? then NoItem else Item(TreeOf(es.value), ItemsOf(es.next))
  }

  ghost function MembersOf(es: Entries): Members
    requires AreEntries(es)
  {
    if es.NoEntry? then NoMember else Member(LiteralText(es.key), TreeOf(es.value), MembersOf(es.next))
  }

  // ---------------------------------------------------------------------------------------------
  // Literals depend on nothing behind their closing quote

  lemma {:induction false} ScanLocal(t: seq<byte>, r: seq<byte>)
    requires LiteralLength(t).Some?
    ensures LiteralLength(t + r) == LiteralLength(t)
    decreases t
  {
    if t[0] != QUOTE {
      var step := if t[0] == BACKSLASH then 2 else 1;
      DropConcat(t, r, step);
      ScanLocal(t[step..], r);
    }
  }

  lemma {:induction false} ScanPrefix(t: seq<byte>, n: nat)
    requires LiteralLength(t) == Some(n)
    ensures LiteralLength(t[..n + 1]) == Some(n)
    decreases t
  {
    if t[0] != QUOTE {
      var step := if t[0] == BACKSLASH then 2 else 1;
      ScanPrefix(t[step..], n - step);
      assert t[..n + 1][step..] == t[step..][..n - step + 1];
    }
  }

  lemma LiteralLocal(t: seq<byte>, r: seq<byte>, n: nat)
    requires n < |t|
    ensures Utf16Literal(t + r, n) == Utf16Literal(t, n)
  {
    if n >= 6 { assert (t + r)[2..6] == t[2..6]; }
    if n >= 12 { assert (t + r)[8..12] == t[8..12]; }
    hide Hex4;
  }

  lemma {:induction false} DecodeLocal(t: seq<byte>, r: seq<byte>, n: nat)
    requires n < |t|
    ensures Decode(t + r, n) == Decode(t, n)
    decreases n, 1
  {
    if n == 0 {
      DecodeNothing(t);
      DecodeNothing(t + r);
    } else if t[0] == BACKSLASH && SimpleEscape(t[1]) == None {
      UnicodeLocal(t, r, n);
    } else {
      hide Encode, SimpleEscape, Utf16Literal;
      var step := if t[0] == BACKSLASH then 2 else 1;
      if step <= n {
        DropConcat(t, r, step);
        DecodeLocal(t[step..], r, n - step);
      }
    }
  }

  lemma UnicodeIs(t: seq<byte>, n: nat)
    requires 0 < n < |t| && t[0] == BACKSLASH && SimpleEscape(t[1]) == None
    ensures var l := Utf16Literal(t, n);
      Decode(t, n) == if t[1] == 117 && l.Literal? then Prefixed(Encode(l.cp), Decode(t[l.len..], n - l.len)) else None
  {
    hide Encode, SimpleEscape, Utf16Literal;
  }

  lemma {:induction false} UnicodeLocal(t: seq<byte>, r: seq<byte>, n: nat)
    requires 0 < n < |t| && t[0] == BACKSLASH && SimpleEscape(t[1]) == None
    ensures Decode(t + r, n) == Decode(t, n)
    decreases n, 0
  {
    LiteralLocal(t, r, n);
    UnicodeIs(t, n);
    UnicodeIs(t + r, n);
    hide Encode, SimpleEscape, Utf16Literal, Decode;
    var l := Utf16Literal(t, n);
    if l.Literal? {
      DropConcat(t, r, l.len);
      DecodeLocal(t[l.len..], r, n - l.len);
    }
  }

  /** A string is read whatever follows it. */
  lemma StrIsRead(lit: seq<byte>, rest: seq<byte>)
    requires IsLiteral(lit) && Terminated(rest)
    ensures Terminated(StrWritten(lit, rest)) && ParseString(StrWritten(lit, rest)) == Got(LiteralText(lit), rest)
  {
    hide LiteralLength, Decode, CString;
    var s, t := StrWritten(lit, rest), lit + ([34] + rest);
    CutConcat([34], t);
    Assoc(lit, [34], rest);
    ScanLocal(lit + [34], rest);
    DecodeLocal(lit + [34], rest, |lit|);
    assert t[|lit| + 1..] == rest;
    assert s[|s| - 1] == rest[|rest| - 1];
  }

  lemma CutAtQuote(t: seq<byte>, n: nat)
    requires n < |t| && t[n] == 34
    ensures t[..n] + [34] == t[..n + 1] && t == t[..n] + [34] + t[n + 1..]
  {
  }

  /** A string that is read is a literal between quotes. */
  lemma ReadIsStr(s: seq<byte>) returns (lit: seq<byte>)
    requires Terminated(s) && ParseString(s).Got?
    ensures IsLiteral(lit) && ParseString(s).value == LiteralText(lit) && s == StrWritten(lit, ParseString(s).rest)
  {
    hide Decode, CString, LiteralLength;
    var t := s[1..];
    var n := LiteralLength(t).value;
    lit := t[..n];
    ScanPrefix(t, n);
    CutAtQuote(t, n);
    DecodeLocal(lit + [34], t[n + 1..], n);
    Assoc(lit, [34], t[n + 1..]);
    assert s == [34] + t;
  }

  // ---------------------------------------------------------------------------------------------
  // Blanks

  /** What is skipped is blank, and it is the longest such run in front of the last byte. */
  lemma {:induction false} SkipIsLongest(s: seq<byte>) returns (w: seq<byte>)
    requires Terminated(s)
    ensures White(w) && s == w + SkipWhitespace(s) && (|SkipWhitespace(s)| == 1 || SkipWhitespace(s)[0] > 32)
  {
    if |s| > 1 && s[0] <= 32 {
      var v := SkipIsLongest(s[1..]);
      w := [s[0]] + v;
      HeadApart(s);
      Assoc([s[0]], v, SkipWhitespace(s[1..]));
    } else {
      w := [];
    }
  }

  lemma BlanksBefore(w: seq<byte>, b: byte, rest: seq<byte>)
    requires White(w) && b > 32 && Terminated(rest)
    ensures var s := w + ([b] + rest);
      && Terminated(s) && !IsNumberChar(s[0]) == (w != [] || !IsNumberChar(b))
      && SkipWhitespace(s) == [b] + rest && ([b] + rest)[1..] == rest && ([b] + rest)[0] == b
  {
    CutConcat([b], rest);
    SkipsTo(w, [b] + rest);
    assert w != [] ==> (w + ([b] + rest))[0] == w[0];
    assert w == [] ==> w + ([b] + rest) == [b] + rest;
    hide SkipWhitespace;
  }

  // ---------------------------------------------------------------------------------------------
  // Every text of the grammar is read

  /** First byte of a value. */
  lemma WrittenLead(x: Syntax, rest: seq<byte>)
    requires IsSyntax(x) && Terminated(rest)
    ensures Written(x, rest) != [] && Written(x, rest)[0] > 32
    ensures Written(x, rest)[0] != 93 && Written(x, rest)[0] != 125
  {
    hide StrtodLength, LiteralLength, Decode, ElementsWritten, EntriesWritten;
  }

  lemma {:induction false} WrittenEnds(x: Syntax, rest: seq<byte>)
    requires Terminated(rest)
    ensures Terminated(Written(x, rest))
    decreases x, 0
  {
    match x
    case Arr(_, es) => ElementsEnd(es, rest);
    case Obj(_, es) => EntriesEnd(es, rest);
    case _ =>
  }

  lemma {:induction false} ElementsEnd(es: Elements, rest: seq<byte>)
    requires Terminated(rest)
    ensures Terminated(ElementsWritten(es, rest))
    decreases es, 0
  {
    if es.Element? {
      if es.next.Element? { ElementsEnd(es.next, rest); }
      var tail := ElementsTail(es, rest);
      WrittenEnds(es.value, tail);
      hide Written;
    }
  }

  lemma {:induction false} EntriesEnd(es: Entries, rest: seq<byte>)
    requires Terminated(rest)
    ensures Terminated(EntriesWritten(es, rest))
    decreases es, 0
  {
    if es.Entry? {
      if es.next.Entry? { EntriesEnd(es.next, rest); }
      var tail := EntriesTail(es, rest);
      WrittenEnds(es.value, tail);
      hide Written;
    }
  }

  lemma WordIsRead(j: Json, rest: seq<byte>, depth: nat)
    requires (j.Null? || j.True? || j.False?) && Terminated(rest)
    ensures Terminated(WordText(j) + rest) && ParseValue(WordText(j) + rest, depth) == Got(j, rest)
  {
    hide ParseString, ParseNumber, ParseArray, ParseObject;
    var t := WordText(j);
    CutConcat(t, rest);
    assert t <= t + rest && (t + rest)[0] == t[0];
  }

  /** A text of the grammar in front of what cannot continue a number is read as its tree, if not nested too deep. */
  lemma {:induction false} SyntaxIsRead(x: Syntax, rest: seq<byte>, depth: nat)
    requires IsSyntax(x) && Delimited(rest) && depth <= NESTING_LIMIT
    ensures Terminated(Written(x, rest)) && ParseValue(Written(x, rest), depth) == Expected(TreeOf(x), depth, rest)
    decreases x, 0
  {
    hide ParseString, ParseNumber, IsNumberText, ParseValue, IsLiteral, StrWritten, LiteralText;
    WrittenEnds(x, rest);
    match x
    case Word(j) => WordIsRead(j, rest, depth);
    case Num(l) =>
      NumberRoundTrip(l, rest);
      LeadOfNumber(l);
      ValueDispatch(l + rest, depth);
    case Str(lit) =>
      StrIsRead(lit, rest);
      StrLead(lit, rest);
      ValueDispatch(StrWritten(lit, rest), depth);
    case Arr(open, es) => ArrIsRead(open, es, rest, depth);
    case Obj(open, es) => ObjIsRead(open, es, rest, depth);
  }

  lemma StrLead(lit: seq<byte>, rest: seq<byte>)
    ensures StrWritten(lit, rest) != [] && StrWritten(lit, rest)[0] == QUOTE
  {
  }

  /** What the array reader does behind the opening bracket. */
  lemma ArrayOpens(w: seq<byte>, body: seq<byte>, depth: nat)
    requires White(w) && Terminated(body) && body[0] > 32
    ensures var s := [91] + (w + body);
      && Terminated(s)
      && (depth >= NESTING_LIMIT ==> ParseValue(s, depth) == Fail)
      && (depth < NESTING_LIMIT && body[0] == 93 ==> ParseValue(s, depth) == Got(Array(NoItem), body[1..]))
      && (depth < NESTING_LIMIT && body[0] != 93 ==> ParseValue(s, depth) == ArrayOf(ParseItems(body, depth + 1)))
  {
    hide ParseValue, ParseItems, SkipWhitespace, White;
    SkipsTo(w, body);
    CutConcat([91], w + body);
    ValueDispatch([91] + (w + body), depth);
    ArrayIs([91] + (w + body), body, depth);
    hide ParseArray;
  }

  lemma ArrayIs(s: seq<byte>, t: seq<byte>, depth: nat)
    requires Terminated(s) && s[0] == 91 && Terminated(s[1..]) && SkipWhitespace(s[1..]) == t
    ensures depth >= NESTING_LIMIT ==> ParseArray(s, depth) == Fail
    ensures depth < NESTING_LIMIT && t[0] == 93 ==> ParseArray(s, depth) == Got(Array(NoItem), t[1..])
    ensures depth < NESTING_LIMIT && t[0] != 93 ==> ParseArray(s, depth) == ArrayOf(ParseItems(t, depth + 1))
  {
    hide ParseItems, SkipWhitespace;
  }

  lemma ObjectIs(s: seq<byte>, t: seq<byte>, depth: nat)
    requires Terminated(s) && s[0] == 123 && Terminated(s[1..]) && SkipWhitespace(s[1..]) == t
    ensures depth >= NESTING_LIMIT ==> ParseObject(s, depth) == Fail
    ensures depth < NESTING_LIMIT && t[0] == 125 ==> ParseObject(s, depth) == Got(Object(NoMember), t[1..])
    ensures depth < NESTING_LIMIT && t[0] != 125 ==> ParseObject(s, depth) == ObjectOf(ParseMembers(t, depth + 1))
  {
    hide ParseMembers, SkipWhitespace;
  }

  function ArrayOf(p: Parsed<Items>): Parsed<Json> {
    match p
    case Fail => Fail
    case Got(items, rest) => Got(Array(items), rest)
  }

  lemma {:induction false} ArrIsRead(open: seq<byte>, es: Elements, rest: seq<byte>, depth: nat)
    requires White(open) && AreElements(es) && Delimited(rest) && depth <= NESTING_LIMIT
    ensures var s := [91] + (open + ElementsWritten(es, rest));
      Terminated(s) && ParseValue(s, depth) == Expected(Array(ItemsOf(es)), depth, rest)
    decreases es, 2
  {
    hide ParseValue, ParseItems, White;
    var body := ElementsWritten(es, rest);
    ElementsEnd(es, rest);
    if es.NoElement? {
      CutConcat([93], rest);
      assert body == [93] + rest && ItemsOf(es) == NoItem;
    } else {
      ElementsLead(es, rest);
      if depth < NESTING_LIMIT { ElementsAreRead(es, rest, depth + 1); }
    }
    hide ElementsWritten, AreElements, ItemsOf;
    ArrayOpens(open, body, depth);
  }

  lemma ElementsLead(es: Elements, rest: seq<byte>)
    requires es.Element? && AreElements(es) && Terminated(rest)
    ensures var body := ElementsWritten(es, rest); body != [] && body[0] > 32 && body[0] != 93
  {
    if es.next.Element? { ElementsEnd(es.next, rest); }
    var tail := ElementsTail(es, rest);
    assert tail[|tail| - 1] == 0;
    WrittenLead(es.value, tail);
    hide Written, IsSyntax;
  }

  function ElementsTail(es: Elements, rest: seq<byte>): seq<byte>
    requires es.Element?
  {
    es.after + if es.next.NoElement? then [93] + rest else [44] + (es.before + ElementsWritten(es.next, rest))
  }

  ghost predicate ElementsRead(es: Elements, rest: seq<byte>, depth: nat)
    requires AreElements(es)
  {
    && Terminated(ElementsWritten(es, rest))
    && ParseItems(ElementsWritten(es, rest), depth) == ExpectedItems(ItemsOf(es), depth, rest)
  }

  ghost predicate ValueRead(x: Syntax, rest: seq<byte>, depth: nat)
    requires IsSyntax(x)
  {
    Terminated(Written(x, rest)) && ParseValue(Written(x, rest), depth) == Expected(TreeOf(x), depth, rest)
  }

  lemma {:induction false} ElementsAreRead(es: Elements, rest: seq<byte>, depth: nat)
    requires es.Element? && AreElements(es) && Terminated(rest) && depth <= NESTING_LIMIT
    ensures ElementsRead(es, rest, depth)
    decreases es, 1
  {
    if es.next.Element? {
      ElementsAreRead(es.next, rest, depth);
    }
    ElementsTailEnds(es, rest);
    SyntaxIsRead(es.value, ElementsTail(es, rest), depth);
    if es.next.NoElement? {
      LastElement(es, rest, depth);
    } else {
      MoreElements(es, rest, depth);
    }
    hide ElementsRead, Written, ParseValue, ElementsTail;
  }

  lemma ElementsTailEnds(es: Elements, rest: seq<byte>)
    requires es.Element? && AreElements(es) && Terminated(rest)
    ensures Delimited(ElementsTail(es, rest))
  {
    hide IsSyntax, ElementsWritten, White;
    if es.next.NoElement? {
      BlanksBefore(es.after, 93, rest);
    } else {
      ElementsEnd(es.next, rest);
      var u := es.before + ElementsWritten(es.next, rest);
      assert u[|u| - 1] == 0;
      BlanksBefore(es.after, 44, u);
    }
  }

  lemma LastElement(es: Elements, rest: seq<byte>, depth: nat)
    requires es.Element? && AreElements(es) && Terminated(rest) && es.next.NoElement?
    requires ValueRead(es.value, ElementsTail(es, rest), depth)
    ensures ElementsRead(es, rest, depth)
  {
    hide ParseValue, ParseItems, Written, TreeOf, IsSyntax, SkipWhitespace, White;
    var tail := ElementsTail(es, rest);
    BlanksBefore(es.after, 93, rest);
    assert ElementsWritten(es, rest) == Written(es.value, tail);
    LastItem(Written(es.value, tail), depth, tail, rest);
    assert ItemsOf(es) == Item(TreeOf(es.value), NoItem);
    assert ItemsNesting(ItemsOf(es)) == Nesting(TreeOf(es.value));
  }

  lemma MoreElements(es: Elements, rest: seq<byte>, depth: nat)
    requires es.Element? && AreElements(es) && Terminated(rest) && es.next.Element?
    requires ValueRead(es.value, ElementsTail(es, rest), depth) && ElementsRead(es.next, rest, depth)
    ensures ElementsRead(es, rest, depth)
  {
    hide ParseValue, ParseItems, Written, TreeOf, IsSyntax, SkipWhitespace, White;
    var tail, body := ElementsTail(es, rest), ElementsWritten(es.next, rest);
    assert ElementsWritten(es, rest) == Written(es.value, tail);
    assert ItemsOf(es) == Item(TreeOf(es.value), ItemsOf(es.next));
    ElementsLead(es.next, rest);
    hide ElementsWritten, ItemsOf;
    JoinItems(TreeOf(es.value), ItemsOf(es.next), depth, tail, rest);
    hide Expected, ExpectedItems;
    SkipsTo(es.before, body);
    BlanksBefore(es.after, 44, es.before + body);
    MoreItems(Written(es.value, tail), depth, tail, es.before + body, body);
  }

  /** The last value of an array. */
  lemma LastItem(s: seq<byte>, depth: nat, tail: seq<byte>, rest: seq<byte>)
    requires Terminated(s) && Terminated(tail) && SkipWhitespace(tail) == [93] + rest
    requires ParseValue(s, depth).Got? ==> ParseValue(s, depth).rest == tail
    ensures ParseItems(s, depth) ==
      if ParseValue(s, depth).Got? then Got(Item(ParseValue(s, depth).value, NoItem), rest) else Fail
  {
    CutConcat([93], rest);
    hide ParseValue, SkipWhitespace;
  }

  /** A value with another one behind a comma. */
  lemma MoreItems(s: seq<byte>, depth: nat, tail: seq<byte>, u: seq<byte>, body: seq<byte>)
    requires Terminated(s) && Terminated(tail) && SkipWhitespace(tail) == [44] + u
    requires Terminated(u) && SkipWhitespace(u) == body
    requires ParseValue(s, depth).Got? ==> ParseValue(s, depth).rest == tail
    ensures ParseItems(s, depth) ==
      if ParseValue(s, depth).Got? && ParseItems(body, depth).Got?
      then Got(Item(ParseValue(s, depth).value, ParseItems(body, depth).value), ParseItems(body, depth).rest)
      else Fail
  {
    CutConcat([44], u);
    hide ParseValue, SkipWhitespace;
  }

  function ObjectOf(p: Parsed<Members>): Parsed<Json> {
    match p
    case Fail => Fail
    case Got(members, rest) => Got(Object(members), rest)
  }

  lemma ObjectOpens(w: seq<byte>, body: seq<byte>, depth: nat)
    requires White(w) && Terminated(body) && body[0] > 32
    ensures var s := [123] + (w + body);
      && Terminated(s)
      && (depth >= NESTING_LIMIT ==> ParseValue(s, depth) == Fail)
      && (depth < NESTING_LIMIT && body[0] == 125 ==> ParseValue(s, depth) == Got(Object(NoMember), body[1..]))
      && (depth < NESTING_LIMIT && body[0] != 125 ==> ParseValue(s, depth) == ObjectOf(ParseMembers(body, depth + 1)))
  {
    hide ParseValue, ParseMembers, SkipWhitespace, White;
    SkipsTo(w, body);
    CutConcat([123], w + body);
    ValueDispatch([123] + (w + body), depth);
    ObjectIs([123] + (w + body), body, depth);
    hide ParseObject;
  }

  lemma {:induction false} ObjIsRead(open: seq<byte>, es: Entries, rest: seq<byte>, depth: nat)
    requires White(open) && AreEntries(es) && Delimited(rest) && depth <= NESTING_LIMIT
    ensures var s := [123] + (open + EntriesWritten(es, rest));
      Terminated(s) && ParseValue(s, depth) == Expected(Object(MembersOf(es)), depth, rest)
    decreases es, 2
  {
    hide ParseValue, ParseMembers, White;
    var body := EntriesWritten(es, rest);
    EntriesEnd(es, rest);
    if es.NoEntry? {
      CutConcat([125], rest);
      assert body == [125] + rest && MembersOf(es) == NoMember;
    } else {
      EntriesLead(es, rest);
      if depth < NESTING_LIMIT { EntriesAreRead(es, rest, depth + 1); }
    }
    hide EntriesWritten, AreEntries, MembersOf;
    ObjectOpens(open, body, depth);
  }

  /** A key and its colon, up to the value. */
  lemma KeyIsRead(key: seq<byte>, left: seq<byte>, right: seq<byte>, s: seq<byte>)
    requires IsLiteral(key) && White(left) && White(right) && Terminated(s) && s[0] > 32
    ensures var t := StrWritten(key, left + ([58] + (right + s)));
      Terminated(t) && ParseKey(t) == Got(LiteralText(key), s)
  {
    hide ParseString, IsLiteral, LiteralText, StrWritten, White;
    SkipsTo(right, s);
    BlanksBefore(left, 58, right + s);
    StrIsRead(key, left + ([58] + (right + s)));
    hide SkipWhitespace;
  }

  function EntriesTail(es: Entries, rest: seq<byte>): seq<byte>
    requires es.Entry?
  {
    es.after + if es.next.NoEntry? then [125] + rest else [44] + (es.before + EntriesWritten(es.next, rest))
  }

  ghost predicate EntriesRead(es: Entries, rest: seq<byte>, depth: nat)
    requires AreEntries(es)
  {
    && Terminated(EntriesWritten(es, rest))
    && ParseMembers(EntriesWritten(es, rest), depth) == ExpectedMembers(MembersOf(es), depth, rest)
  }

  lemma {:induction false} EntriesAreRead(es: Entries, rest: seq<byte>, depth: nat)
    requires es.Entry? && AreEntries(es) && Terminated(rest) && depth <= NESTING_LIMIT
    ensures EntriesRead(es, rest, depth)
    decreases es, 1
  {
    if es.next.Entry? {
      EntriesAreRead(es.next, rest, depth);
    }
    EntriesTailEnds(es, rest);
    SyntaxIsRead(es.value, EntriesTail(es, rest), depth);
    if es.next.NoEntry? {
      LastEntry(es, rest, depth);
    } else {
      MoreEntries(es, rest, depth);
    }
    hide EntriesRead, Written, ParseValue, EntriesTail;
  }

  lemma EntriesTailEnds(es: Entries, rest: seq<byte>)
    requires es.Entry? && AreEntries(es) && Terminated(rest)
    ensures Delimited(EntriesTail(es, rest))
  {
    hide IsSyntax, IsLiteral, EntriesWritten, White;
    if es.next.NoEntry? {
      BlanksBefore(es.after, 125, rest);
    } else {
      EntriesEnd(es.next, rest);
      var u := es.before + EntriesWritten(es.next, rest);
      assert u[|u| - 1] == 0;
      BlanksBefore(es.after, 44, u);
    }
  }

  /** The key of an entry, in front of its value. */
  lemma EntryKey(es: Entries, rest: seq<byte>)
    requires es.Entry? && AreEntries(es) && Terminated(rest)
    ensures Terminated(EntriesWritten(es, rest))
    ensures ParseKey(EntriesWritten(es, rest)) == Got(LiteralText(es.key), Written(es.value, EntriesTail(es, rest)))
  {
    var tail := EntriesTail(es, rest);
    EntriesTailEnds(es, rest);
    WrittenLead(es.value, tail);
    WrittenEnds(es.value, tail);
    KeyIsRead(es.key, es.left, es.right, Written(es.value, tail));
    hide Written, ParseKey, StrWritten, White, IsSyntax, IsLiteral, LiteralText;
  }

  lemma LastEntry(es: Entries, rest: seq<byte>, depth: nat)
    requires es.Entry? && AreEntries(es) && Terminated(rest) && es.next.NoEntry?
    requires ValueRead(es.value, EntriesTail(es, rest), depth)
    ensures EntriesRead(es, rest, depth)
  {
    hide ParseValue, ParseMembers, Written, TreeOf, IsSyntax, SkipWhitespace, White, ParseKey, IsLiteral, LiteralText;
    var tail := EntriesTail(es, rest);
    BlanksBefore(es.after, 125, rest);
    EntryKey(es, rest);
    LastMember(EntriesWritten(es, rest), depth, tail, rest);
    assert MembersOf(es) == Member(LiteralText(es.key), TreeOf(es.value), NoMember);
    assert MembersNesting(MembersOf(es)) == Nesting(TreeOf(es.value));
    hide EntriesWritten;
  }

  /** The nesting of a member and of those behind it decide together. */
  lemma JoinMembers(k: seq<byte>, v: Json, ms: Members, depth: nat, tail: seq<byte>, rest: seq<byte>)
    ensures var p, q := Expected(v, depth, tail), ExpectedMembers(ms, depth, rest);
      && (p.Got? ==> p == Got(v, tail)) && (q.Got? ==> q == Got(ms, rest))
      && ExpectedMembers(Member(k, v, ms), depth, rest) ==
         if p.Got? && q.Got? then Got(Member(k, v, ms), rest) else Fail
  {
    assert MembersNesting(Member(k, v, ms)) == Max(Nesting(v), MembersNesting(ms));
    hide Nesting, MembersNesting;
  }

  lemma JoinItems(v: Json, items: Items, depth: nat, tail: seq<byte>, rest: seq<byte>)
    ensures var p, q := Expected(v, depth, tail), ExpectedItems(items, depth, rest);
      && (p.Got? ==> p == Got(v, tail)) && (q.Got? ==> q == Got(items, rest))
      && ExpectedItems(Item(v, items), depth, rest) == if p.Got? && q.Got? then Got(Item(v, items), rest) else Fail
  {
    assert ItemsNesting(Item(v, items)) == Max(Nesting(v), ItemsNesting(items));
    hide Nesting, ItemsNesting;
  }

  lemma MoreEntries(es: Entries, rest: seq<byte>, depth: nat)
    requires es.Entry? && AreEntries(es) && Terminated(rest) && es.next.Entry?
    requires ValueRead(es.value, EntriesTail(es, rest), depth) && EntriesRead(es.next, rest, depth)
    ensures EntriesRead(es, rest, depth)
  {
    hide ParseValue, ParseMembers, Written, TreeOf, IsSyntax, SkipWhitespace, White, ParseKey, IsLiteral, LiteralText;
    var tail, body := EntriesTail(es, rest), EntriesWritten(es.next, rest);
    assert MembersOf(es) == Member(LiteralText(es.key), TreeOf(es.value), MembersOf(es.next));
    EntriesLead(es.next, rest);
    hide EntriesWritten, MembersOf, AreEntries;
    JoinMembers(LiteralText(es.key), TreeOf(es.value), MembersOf(es.next), depth, tail, rest);
    hide Expected, ExpectedMembers;
    EntryKey(es, rest);
    SkipsTo(es.before, body);
    BlanksBefore(es.after, 44, es.before + body);
    MoreMembers(EntriesWritten(es, rest), depth, tail, es.before + body, body);
  }

  /** The last member of an object. */
  lemma LastMember(s: seq<byte>, depth: nat, tail: seq<byte>, rest: seq<byte>)
    requires Terminated(s) && Terminated(tail) && SkipWhitespace(tail) == [125] + rest && ParseKey(s).Got?
    requires var p := ParseValue(ParseKey(s).rest, depth); p.Got? ==> p.rest == tail
    ensures var p := ParseValue(ParseKey(s).rest, depth);
      ParseMembers(s, depth) == if p.Got? then Got(Member(ParseKey(s).value, p.value, NoMember), rest) else Fail
  {
    CutConcat([125], rest);
    hide ParseValue, SkipWhitespace, ParseKey;
  }

  /** A member with another one behind a comma. */
  lemma MoreMembers(s: seq<byte>, depth: nat, tail: seq<byte>, u: seq<byte>, body: seq<byte>)
    requires Terminated(s) && Terminated(tail) && SkipWhitespace(tail) == [44] + u && ParseKey(s).Got?
    requires Terminated(u) && SkipWhitespace(u) == body
    requires var p := ParseValue(ParseKey(s).rest, depth); p.Got? ==> p.rest == tail
    ensures var p, q := ParseValue(ParseKey(s).rest, depth), ParseMembers(body, depth);
      ParseMembers(s, depth) ==
      if p.Got? && q.Got? then Got(Member(ParseKey(s).value, p.value, q.value), q.rest) else Fail
  {
    CutConcat([44], u);
    hide ParseValue, SkipWhitespace, ParseKey;
  }

  lemma EntriesLead(es: Entries, rest: seq<byte>)
    requires es.Entry?
    ensures EntriesWritten(es, rest) != [] && EntriesWritten(es, rest)[0] == 34
  {
  }

  // ---------------------------------------------------------------------------------------------
  // Nothing else is read

  lemma HeadApart(s: seq<byte>)
    requires s != []
    ensures s == [s[0]] + s[1..]
  {
  }

  lemma ReadIsWord(s: seq<byte>, depth: nat) returns (x: Syntax)
    requires Terminated(s) && (NULL_TEXT <= s || FALSE_TEXT <= s || TRUE_TEXT <= s)
    ensures ParseValue(s, depth).Got? && IsSyntax(x) && TreeOf(x) == ParseValue(s, depth).value
    ensures s == Written(x, ParseValue(s, depth).rest)
  {
    hide ParseString, ParseNumber, ParseArray, ParseObject;
    var j := if NULL_TEXT <= s then Null else if FALSE_TEXT <= s then False else True;
    x := Word(j);
    assert WordText(j) == s[..|WordText(j)|];
  }

  /** Whatever is read is a text of the grammar, and its tree is what was read. */
  lemma {:induction false} ReadIsSyntax(s: seq<byte>, depth: nat) returns (x: Syntax)
    requires Terminated(s) && depth <= NESTING_LIMIT && ParseValue(s, depth).Got?
    ensures IsSyntax(x) && TreeOf(x) == ParseValue(s, depth).value && s == Written(x, ParseValue(s, depth).rest)
    decreases |s|, 1
  {
    hide ParseString, ParseNumber, ParseArray, ParseObject, IsNumberText, IsLiteral, LiteralText;
    if NULL_TEXT <= s || FALSE_TEXT <= s || TRUE_TEXT <= s {
      x := ReadIsWord(s, depth);
    } else if s[0] == QUOTE {
      var lit := ReadIsStr(s);
      x := Str(lit);
    } else if s[0] == MINUS || IsDigit(s[0]) {
      x := ReadIsNum(s);
    } else if s[0] == LBRACKET {
      x := ReadIsArr(s, depth);
    } else {
      x := ReadIsObj(s, depth);
    }
  }

  lemma NumberApart(s: seq<byte>)
    requires Terminated(s) && ParseNumber(s).Got? && ParseNumber(s).value.Number?
    ensures s == ParseNumber(s).value.lexeme + ParseNumber(s).rest
  {
    hide NumberRun, StrtodLength;
  }

  lemma ReadIsNum(s: seq<byte>) returns (x: Syntax)
    requires Terminated(s) && (s[0] == MINUS || IsDigit(s[0])) && ParseNumber(s).Got?
    ensures IsSyntax(x) && TreeOf(x) == ParseNumber(s).value && s == Written(x, ParseNumber(s).rest)
  {
    R.ParsedNumber(s);
    hide IsNumberText, NumberRun, StrtodLength;
    x := Num(ParseNumber(s).value.lexeme);
    NumberApart(s);
    hide ParseNumber;
  }

  lemma {:induction false} ReadIsArr(s: seq<byte>, depth: nat) returns (x: Syntax)
    requires Terminated(s) && s[0] == LBRACKET && depth <= NESTING_LIMIT && ParseArray(s, depth).Got?
    ensures IsSyntax(x) && TreeOf(x) == ParseArray(s, depth).value && s == Written(x, ParseArray(s, depth).rest)
    decreases |s|, 0
  {
    hide SkipWhitespace, ParseItems, White;
    var t := SkipWhitespace(s[1..]);
    var open := SkipIsLongest(s[1..]);
    HeadApart(s);
    if t[0] == RBRACKET {
      x := Arr(open, NoElement);
      HeadApart(t);
    } else {
      var es := ReadAreElements(t, depth + 1);
      x := Arr(open, es);
      hide AreElements, ElementsWritten;
    }
  }

  lemma {:induction false} ReadAreElements(s: seq<byte>, depth: nat) returns (es: Elements)
    requires Terminated(s) && depth <= NESTING_LIMIT && ParseItems(s, depth).Got?
    ensures es.Element? && AreElements(es) && ItemsOf(es) == ParseItems(s, depth).value
    ensures s == ElementsWritten(es, ParseItems(s, depth).rest)
    decreases |s|, 2
  {
    hide SkipWhitespace, ParseValue, White, IsSyntax, Written;
    var x := ReadIsSyntax(s, depth);
    var rest := ParseValue(s, depth).rest;
    var t := SkipWhitespace(rest);
    var after := SkipIsLongest(rest);
    HeadApart(t);
    NoBlanks();
    if t[0] == COMMA {
      var u := SkipWhitespace(t[1..]);
      var before := SkipIsLongest(t[1..]);
      var next := ReadAreElements(u, depth);
      es := Element(x, after, before, next);
    } else {
      es := Element(x, after, [], NoElement);
    }
  }

  lemma NoBlanks()
    ensures White([])
  {
  }

  lemma {:induction false} ReadIsObj(s: seq<byte>, depth: nat) returns (x: Syntax)
    requires Terminated(s) && s[0] == LBRACE && depth <= NESTING_LIMIT && ParseObject(s, depth).Got?
    ensures IsSyntax(x) && TreeOf(x) == ParseObject(s, depth).value && s == Written(x, ParseObject(s, depth).rest)
    decreases |s|, 0
  {
    hide SkipWhitespace, ParseMembers, White;
    var t := SkipWhitespace(s[1..]);
    var open := SkipIsLongest(s[1..]);
    HeadApart(s);
    if t[0] == RBRACE {
      x := Obj(open, NoEntry);
      HeadApart(t);
    } else {
      var es := ReadAreEntries(t, depth + 1);
      x := Obj(open, es);
      hide AreEntries, EntriesWritten;
    }
  }

  /** A key that is read: its literal, and the blanks around its colon. */
  lemma ReadIsKey(s: seq<byte>) returns (key: seq<byte>, left: seq<byte>, right: seq<byte>)
    requires Terminated(s) && ParseKey(s).Got?
    ensures IsLiteral(key) && White(left) && White(right) && ParseKey(s).value == LiteralText(key)
    ensures s == StrWritten(key, left + ([58] + (right + ParseKey(s).rest)))
  {
    hide SkipWhitespace, ParseString, White, IsLiteral, LiteralText, StrWritten;
    key := ReadIsStr(s);
    var rest := ParseString(s).rest;
    var t := SkipWhitespace(rest);
    left := SkipIsLongest(rest);
    HeadApart(t);
    right := SkipIsLongest(t[1..]);
  }

  lemma {:induction false} ReadAreEntries(s: seq<byte>, depth: nat) returns (es: Entries)
    requires Terminated(s) && depth <= NESTING_LIMIT && ParseMembers(s, depth).Got?
    ensures es.Entry? && AreEntries(es) && MembersOf(es) == ParseMembers(s, depth).value
    ensures s == EntriesWritten(es, ParseMembers(s, depth).rest)
    decreases |s|, 2
  {
    hide SkipWhitespace, ParseValue, White, IsSyntax, Written, ParseKey, IsLiteral, LiteralText, StrWritten;
    var key, left, right := ReadIsKey(s);
    var x := ReadIsSyntax(ParseKey(s).rest, depth);
    var rest := ParseValue(ParseKey(s).rest, depth).rest;
    var t := SkipWhitespace(rest);
    var after := SkipIsLongest(rest);
    HeadApart(t);
    NoBlanks();
    if t[0] == COMMA {
      var u := SkipWhitespace(t[1..]);
      var before := SkipIsLongest(t[1..]);
      var next := ReadAreEntries(u, depth);
      es := Entry(key, left, right, x, after, before, next);
    } else {
      es := Entry(key, left, right, x, after, [], NoEntry);
    }
  }

  // ---------------------------------------------------------------------------------------------
  // Whole documents

  /** Every document that is accepted is blanks, a text of the grammar, and the rest; with the check, blanks only. */
  lemma AcceptedIsSyntax(value: seq<byte>, checked: bool) returns (lead: seq<byte>, x: Syntax, rest: seq<byte>)
    requires ParseWithOpts(value, checked).Some?
    ensures White(lead) && IsSyntax(x) && TreeOf(x) == ParseWithOpts(value, checked).value
    ensures CString(value) + [0] == lead + Written(x, rest) && Nesting(TreeOf(x)) <= NESTING_LIMIT
    ensures Terminated(rest) && (checked ==> SkipWhitespace(rest)[0] == 0)
  {
    hide SkipWhitespace, ParseValue, White, IsSyntax, Written, CString;
    var s := CString(value) + [0];
    var t := SkipWhitespace(s);
    lead := SkipIsLongest(s);
    R.ParsedValue(t, 0);
    x := ReadIsSyntax(t, 0);
    rest := ParseValue(t, 0).rest;
  }

  /** Every such document is accepted, unless it is nested too deep. */
  lemma SyntaxIsAccepted(lead: seq<byte>, x: Syntax, rest: seq<byte>, value: seq<byte>, checked: bool)
    requires White(lead) && IsSyntax(x) && Delimited(rest) && CString(value) + [0] == lead + Written(x, rest)
    requires checked ==> SkipWhitespace(rest)[0] == 0
    ensures ParseWithOpts(value, checked) == if Nesting(TreeOf(x)) <= NESTING_LIMIT then Some(TreeOf(x)) else None
  {
    hide SkipWhitespace, ParseValue, White, CString;
    WrittenEnds(x, rest);
    WrittenLead(x, rest);
    SkipsTo(lead, Written(x, rest));
    SyntaxIsRead(x, rest, 0);
    hide Written, IsSyntax;
  }
}
