/** `cJSON_Minify`, and the deletion of newlines and tabs that the app applies to its report. */
module JsonMinify {
  import opened Bytes
  import opened JsonTree
  import opened JsonParse
  import opened JsonRoundTrip

  // ---------------------------------------------------------------------------------------------
  // cJSON_Minify

  const CARRIAGE_RETURN: byte := 13
  const STAR: byte := 42

  predicate IsBlank(b: byte) { b == SPACE || b == TAB || b == CARRIAGE_RETURN || b == NEWLINE }

  /** From `//` to the end of the line, which is left in place. */
  function AfterLine(s: seq<byte>): (r: seq<byte>)
    ensures |r| <= |s|
  {
    if s == [] || s[0] == NEWLINE then s else AfterLine(s[1..])
  }

  /** Past the first star followed by a slash; None when the text ends first. */
  function AfterComment(s: seq<byte>): (r: Option<seq<byte>>)
    ensures r.Some? ==> |r.value| < |s|
  {
    if |s| < 2 then None
    else if s[0] == STAR && s[1] == SLASH then Some(s[2..])
    else AfterComment(s[1..])
  }

  /**
   * The text without blanks and comments, string literals untouched. None when a comment or a
   * literal is left open: the loop then steps over the terminating NUL.
   */
  function Minified(s: seq<byte>): Option<seq<byte>>
    decreases |s|
  {
    if s == [] then Some([])
    else if IsBlank(s[0]) then Minified(s[1..])
    else if s[0] == SLASH && |s| > 1 && s[1] == SLASH then Minified(AfterLine(s[1..]))
    else if s[0] == SLASH && |s| > 1 && s[1] == STAR then
      match AfterComment(s)
      case None => None
      case Some(rest) => Minified(rest)
    else if s[0] == QUOTE then
      match LiteralLength(s[1..])
      case None => None
      case Some(n) => Prefixed(s[..n + 2], Minified(s[n + 2..]))
    else Prefixed([s[0]], Minified(s[1..]))
  }

  /** Whitespace that the minifier drops. */
  ghost predicate Blank(w: seq<byte>) { forall i :: 0 <= i < |w| ==> IsBlank(w[i]) }

  ghost predicate BlankStyle(st: Style) { Blank(st.space) && Blank(st.newline) && Blank(st.tab) }

  lemma {:induction false} MinifyBlank(w: seq<byte>, s: seq<byte>)
    requires Blank(w)
    ensures Minified(w + s) == Minified(s)
  {
    if w == [] {
      assert w + s == s;
    } else {
      TailOfConcat(w, s);
      MinifyBlank(w[1..], s);
    }
  }

  predicate IsPlain(b: byte) { !IsBlank(b) && b != SLASH && b != QUOTE }

  lemma MinifyPlain(b: byte, s: seq<byte>)
    requires IsPlain(b)
    ensures Minified([b] + s) == Prefixed([b], Minified(s))
  {
    CutConcat([b], s);
  }

  lemma {:induction false} MinifyPlainRun(l: seq<byte>, s: seq<byte>)
    requires forall i :: 0 <= i < |l| ==> IsPlain(l[i])
    ensures Minified(l + s) == Prefixed(l, Minified(s))
  {
    hide Minified, IsPlain;
    if l == [] {
      assert l + s == s;
      if Minified(s).Some? { assert [] + Minified(s).value == Minified(s).value; }
    } else {
      MinifyPlainRun(l[1..], s);
      MinifyPlain(l[0], l[1..] + s);
      Assoc([l[0]], l[1..], s);
      PrefixedTwice([l[0]], l[1..], Minified(s));
      assert [l[0]] + l[1..] == l;
    }
  }

  lemma MinifyQuoted(t: seq<byte>, s: seq<byte>)
    requires NulFree(t)
    ensures Minified(Quoted(t) + s) == Prefixed(Quoted(t), Minified(s))
  {
    hide Escape, LiteralLength;
    var tail := Escape(t) + ([QUOTE] + s);
    Assoc(Escape(t), [QUOTE], s);
    Assoc([QUOTE], Escape(t) + [QUOTE], s);
    assert Quoted(t) + s == [QUOTE] + tail;
    ScanEscaped(t, [QUOTE] + s);
    CutConcat([QUOTE], tail);
    CutConcat(Quoted(t), s);
  }

  /** Minifying a printed value in any blank layout yields its unformatted text. */
  lemma {:induction false} MinifyText(st: Style, j: Json, pd: nat, s: seq<byte>)
    requires BlankStyle(st) && Printable(j)
    ensures Minified(Text(st, j, pd) + s) == Prefixed(Text(UNFORMATTED, j, pd), Minified(s))
    decreases j, 0
  {
    hide Minified, Quoted, StrtodLength, ItemsText, MembersText;
    match j
    case Number(l) => MinifyPlainRun(l, s);
    case String(t) => MinifyQuoted(t, s);
    case Array(items) =>
      var body := ItemsText(st, items, pd + 1);
      Assoc([LBRACKET], body, s);
      MinifyPlain(LBRACKET, body + s);
      MinifyItems(st, items, pd + 1, s);
      PrefixedTwice([LBRACKET], ItemsText(UNFORMATTED, items, pd + 1), Minified(s));
    case Object(ms) =>
      var body := MembersText(st, ms, pd + 1);
      Assoc([LBRACE], st.newline + body, s);
      Assoc(st.newline, body, s);
      MinifyPlain(LBRACE, st.newline + (body + s));
      MinifyBlank(st.newline, body + s);
      MinifyMembers(st, ms, pd + 1, s);
      PrefixedTwice([LBRACE], MembersText(UNFORMATTED, ms, pd + 1), Minified(s));
      assert [] + MembersText(UNFORMATTED, ms, pd + 1) == MembersText(UNFORMATTED, ms, pd + 1);
    case _ => MinifyPlainRun(Text(st, j, pd), s);
  }

  lemma {:induction false} MinifyItems(st: Style, items: Items, pd: nat, s: seq<byte>)
    requires BlankStyle(st) && PrintableItems(items)
    ensures Minified(ItemsText(st, items, pd) + s) == Prefixed(ItemsText(UNFORMATTED, items, pd), Minified(s))
    decreases items, 1
  {
    hide Minified, Text;
    match items
    case NoItem => MinifyPlain(RBRACKET, s);
    case Item(v, next) =>
      var more := ItemsRest(st, next, pd);
      Assoc(Text(st, v, pd), more, s);
      MinifyText(st, v, pd, more + s);
      MinifyItemsRest(st, next, pd, s);
      PrefixedTwice(Text(UNFORMATTED, v, pd), ItemsRest(UNFORMATTED, next, pd), Minified(s));
  }

  lemma {:induction false} MinifyItemsRest(st: Style, items: Items, pd: nat, s: seq<byte>)
    requires BlankStyle(st) && PrintableItems(items)
    ensures Minified(ItemsRest(st, items, pd) + s) == Prefixed(ItemsRest(UNFORMATTED, items, pd), Minified(s))
    decreases items, 2
  {
    hide Minified, Text;
    match items
    case NoItem => MinifyPlain(RBRACKET, s);
    case Item(_, _) =>
      var body, bare := ItemsText(st, items, pd), ItemsText(UNFORMATTED, items, pd);
      Assoc([COMMA], st.space + body, s);
      Assoc(st.space, body, s);
      MinifyPlain(COMMA, st.space + (body + s));
      MinifyBlank(st.space, body + s);
      MinifyItems(st, items, pd, s);
      PrefixedTwice([COMMA], bare, Minified(s));
      assert [] + bare == bare;
  }

  lemma {:induction false} TabsAreBlank(st: Style, n: nat)
    requires Blank(st.tab)
    ensures Blank(Tabs(st, n))
  {
    if n > 0 { TabsAreBlank(st, n - 1); }
  }

  lemma {:induction false} NoTabs(n: nat)
    ensures Tabs(UNFORMATTED, n) == []
  {
    if n > 0 { NoTabs(n - 1); }
  }

  lemma MinifyClosing(st: Style, pd: nat, s: seq<byte>)
    requires Blank(st.tab)
    ensures Minified(Closing(st, pd) + s) == Prefixed(Closing(UNFORMATTED, pd), Minified(s))
  {
    hide Minified;
    var n := if pd == 0 then 0 else pd - 1;
    TabsAreBlank(st, n);
    NoTabs(n);
    Assoc(Tabs(st, n), [RBRACE], s);
    MinifyBlank(Tabs(st, n), [RBRACE] + s);
    MinifyPlain(RBRACE, s);
    hide Tabs;
    assert [] + [RBRACE] == [RBRACE];
  }

  lemma {:induction false} MinifyMember(st: Style, k: seq<byte>, v: Json, pd: nat, s: seq<byte>)
    requires BlankStyle(st) && NulFree(k) && Printable(v)
    ensures Minified(MemberText(st, k, v, pd) + s) == Prefixed(MemberText(UNFORMATTED, k, v, pd), Minified(s))
    decreases v, 1
  {
    hide Minified, Text, Quoted, Tabs;
    var t, bare := Text(st, v, pd), Text(UNFORMATTED, v, pd);
    Assoc(Tabs(st, pd), Quoted(k) + ([COLON] + (st.tab + t)), s);
    Assoc(Quoted(k), [COLON] + (st.tab + t), s);
    Assoc([COLON], st.tab + t, s);
    Assoc(st.tab, t, s);
    TabsAreBlank(st, pd);
    MinifyBlank(Tabs(st, pd), Quoted(k) + ([COLON] + (st.tab + (t + s))));
    MinifyQuoted(k, [COLON] + (st.tab + (t + s)));
    MinifyPlain(COLON, st.tab + (t + s));
    MinifyBlank(st.tab, t + s);
    MinifyText(st, v, pd, s);
    PrefixedTwice([COLON], bare, Minified(s));
    PrefixedTwice(Quoted(k), [COLON] + bare, Minified(s));
    NoTabs(pd);
    assert [] + bare == bare && [] + (Quoted(k) + ([COLON] + bare)) == Quoted(k) + ([COLON] + bare);
  }

  lemma {:induction false} MinifyMembers(st: Style, ms: Members, pd: nat, s: seq<byte>)
    requires BlankStyle(st) && PrintableMembers(ms)
    ensures Minified(MembersText(st, ms, pd) + s) == Prefixed(MembersText(UNFORMATTED, ms, pd), Minified(s))
    decreases ms, 1
  {
    hide Minified, MemberText, Closing;
    match ms
    case NoMember => MinifyClosing(st, pd, s);
    case Member(k, v, next) =>
      var more := MembersRest(st, next, pd);
      Assoc(MemberText(st, k, v, pd), more, s);
      MinifyMember(st, k, v, pd, more + s);
      MinifyMembersRest(st, next, pd, s);
      PrefixedTwice(MemberText(UNFORMATTED, k, v, pd), MembersRest(UNFORMATTED, next, pd), Minified(s));
  }

  lemma {:induction false} MinifyMembersRest(st: Style, ms: Members, pd: nat, s: seq<byte>)
    requires BlankStyle(st) && PrintableMembers(ms)
    ensures Minified(MembersRest(st, ms, pd) + s) == Prefixed(MembersRest(UNFORMATTED, ms, pd), Minified(s))
    decreases ms, 2
  {
    hide Minified, MemberText, Closing;
    var body, bare := MembersText(st, ms, pd), MembersText(UNFORMATTED, ms, pd);
    assert [] + bare == bare;
    Assoc(st.newline, body, s);
    MinifyBlank(st.newline, body + s);
    MinifyMembers(st, ms, pd, s);
    if ms.Member? {
      Assoc([COMMA], st.newline + body, s);
      MinifyPlain(COMMA, st.newline + (body + s));
      PrefixedTwice([COMMA], bare, Minified(s));
    }
  }

  /** Minifying what `cJSON_Print` prints gives what `cJSON_PrintUnformatted` prints. */
  lemma MinifyFormatted(j: Json)
    requires Printable(j)
    ensures Minified(Text(FORMATTED, j, 0)) == Some(Text(UNFORMATTED, j, 0))
  {
    hide Text;
    MinifyText(FORMATTED, j, 0, []);
    assert Text(FORMATTED, j, 0) + [] == Text(FORMATTED, j, 0);
    assert Text(UNFORMATTED, j, 0) + [] == Text(UNFORMATTED, j, 0);
  }

  // ---------------------------------------------------------------------------------------------
  // The minifier in place: the read position runs ahead of the write position.

  /** The text in the array is still to be read from `from` on, and `out` bytes are final. */
  ghost predicate Progress(a: seq<byte>, text: seq<byte>, from: nat, out: nat)
  {
    && |a| > |text| && out <= from <= |text|
    && a[from..|text|] == text[from..] && a[|text|] == 0
    && Minified(text) == Prefixed(a[..out], Minified(text[from..]))
  }

  lemma ProgressStarts(a: seq<byte>, text: seq<byte>)
    requires |a| > |text| && a[..|text|] == text && a[|text|] == 0
    ensures Progress(a, text, 0, 0)
  {
    hide Minified;
    assert text[0..] == text && a[0..|text|] == text && a[..0] == [];
    if Minified(text).Some? { assert [] + Minified(text).value == Minified(text).value; }
  }

  /** Dropping bytes only moves the read position. */
  lemma ProgressSkips(a: seq<byte>, text: seq<byte>, from: nat, to: nat, out: nat)
    requires Progress(a, text, from, out) && from <= to <= |text|
    requires Minified(text[from..]) == Minified(text[to..])
    ensures Progress(a, text, to, out)
  {
    hide Minified;
    assert a[to..|text|] == a[from..|text|][to - from..] == text[to..];
  }

  /** Copying bytes down keeps the unread part, because the write position is never ahead. */
  lemma ProgressCopies(a: seq<byte>, b: seq<byte>, text: seq<byte>, from: nat, to: nat, out: nat)
    requires Progress(a, text, from, out) && from <= to <= |text| && |b| == |a|
    requires Minified(text[from..]) == Prefixed(text[from..to], Minified(text[to..]))
    requires b[..out] == a[..out] && b[out..out + (to - from)] == text[from..to] && b[to..] == a[to..]
    ensures Progress(b, text, to, out + (to - from))
  {
    hide Minified;
    assert b[to..|text|] == b[to..][..|text| - to] == a[to..][..|text| - to] == a[from..|text|][to - from..];
    assert b[|text|] == b[to..][|text| - to];
    PrefixedTwice(a[..out], text[from..to], Minified(text[to..]));
    assert b[..out + (to - from)] == b[..out] + b[out..out + (to - from)];
  }

  /** The array from `from` on is still the text and its terminator. */
  ghost predicate Unread(a: seq<byte>, text: seq<byte>, from: nat) {
    |a| > |text| && a[|text|] == 0 && forall k :: from <= k < |text| ==> a[k] == text[k]
  }

  lemma ProgressIsUnread(a: seq<byte>, text: seq<byte>, from: nat, out: nat)
    requires Progress(a, text, from, out)
    ensures Unread(a, text, from)
  {
    hide Minified;
    forall k | from <= k < |text| ensures a[k] == text[k] {
      assert a[k] == a[from..|text|][k - from] && text[k] == text[from..][k - from];
    }
  }

  lemma TailOfTail(s: seq<byte>, k: nat)
    requires k < |s|
    ensures s[k..] != [] && s[k..][0] == s[k] && s[k..][1..] == s[k + 1..]
  {
  }

  lemma PairOfTail(s: seq<byte>, k: nat)
    requires k + 1 < |s|
    ensures |s[k..]| >= 2 && s[k..][0] == s[k] && s[k..][1] == s[k + 1] && s[k..][2..] == s[k + 2..]
  {
  }

  /** The loop over a `//` comment: it stops at the newline or at the terminator. */
  method SkipLine(a: array<byte>, from: nat, ghost text: seq<byte>) returns (json: nat)
    requires NulFree(text) && from <= |text| && Unread(a[..], text, from)
    ensures from <= json <= |text| && text[json..] == AfterLine(text[from..])
  {
    hide AfterLine;
    json := from;
    while a[json] != 0 && a[json] != NEWLINE
      invariant from <= json <= |text| && AfterLine(text[json..]) == AfterLine(text[from..])
      decreases |text| - json
    {
      TailOfTail(text, json);
      AfterLineStep(text[json..]);
      json := json + 1;
    }
    AfterLineStep(text[json..]);
    if json < |text| {
      TailOfTail(text, json);
    }
  }

  lemma AfterLineStep(s: seq<byte>)
    ensures s == [] || s[0] == NEWLINE ==> AfterLine(s) == s
    ensures s != [] && s[0] != NEWLINE ==> AfterLine(s) == AfterLine(s[1..])
  {
  }

  /** Where a block comment ends, or two bytes past the terminator if it does not. */
  ghost predicate CommentEnds(text: seq<byte>, from: nat, to: nat)
    requires from <= |text|
  {
    match AfterComment(text[from..])
    case None => to == |text| + 2
    case Some(rest) => to <= |text| && text[to..] == rest
  }

  /** The loop over a block comment and the step over its closing mark. */
  method SkipComment(a: array<byte>, from: nat, ghost text: seq<byte>) returns (json: nat)
    requires NulFree(text) && from <= |text| && Unread(a[..], text, from)
    ensures json > from && CommentEnds(text, from, json)
  {
    hide AfterComment;
    json := from;
    while a[json] != 0 && !(a[json] == STAR && a[json + 1] == SLASH)
      invariant from <= json <= |text| && AfterComment(text[json..]) == AfterComment(text[from..])
      decreases |text| - json
    {
      TailOfTail(text, json);
      if json + 1 < |text| { PairOfTail(text, json); }
      AfterCommentStep(text[json..]);
      json := json + 1;
    }
    AfterCommentStep(text[json..]);
    if json + 1 < |text| { PairOfTail(text, json); }
    json := json + 2;
  }

  lemma AfterCommentStep(s: seq<byte>)
    ensures s == [] ==> AfterComment(s) == None
    ensures |s| >= 2 && s[0] == STAR && s[1] == SLASH ==> AfterComment(s) == Some(s[2..])
    ensures s != [] && !(|s| >= 2 && s[0] == STAR && s[1] == SLASH) ==> AfterComment(s) == AfterComment(s[1..])
  {
  }

  /** The bytes `from..from + i` have moved down to `out`; everything before them and behind them is as it was. */
  ghost predicate MovedDown(a: seq<byte>, was: seq<byte>, from: nat, out: nat, i: nat) {
    && |a| == |was| && out <= from && from + i <= |a|
    && (forall k :: 0 <= k < out ==> a[k] == was[k])
    && (forall k :: out <= k < out + i ==> a[k] == was[k - out + from])
    && (forall k :: from + i <= k < |a| ==> a[k] == was[k])
  }

  lemma MovedOneMore(a: seq<byte>, was: seq<byte>, from: nat, out: nat, i: nat)
    requires MovedDown(a, was, from, out, i) && from + i < |a|
    ensures MovedDown(a[out + i := a[from + i]], was, from, out, i + 1)
  {
  }

  lemma MovedSlices(a: seq<byte>, was: seq<byte>, from: nat, out: nat, i: nat)
    requires MovedDown(a, was, from, out, i)
    ensures a[..out] == was[..out] && a[out..out + i] == was[from..from + i] && a[from + i..] == was[from + i..]
  {
  }

  /** `*into++ = *json++` */
  method CopyByte(a: array<byte>, ghost was: seq<byte>, ghost from: nat, ghost out: nat, json: nat, into: nat)
    requires json >= from && json - from == into - out && json < a.Length
    requires MovedDown(a[..], was, from, out, json - from)
    modifies a
    ensures MovedDown(a[..], was, from, out, json + 1 - from)
  {
    MovedOneMore(a[..], was, from, out, json - from);
    ghost var next := a[..][into := a[json]];
    a[into] := a[json];
    assert a[..] == next;
    hide MovedDown;
  }

  /** Where a literal ends, or past the terminator if it does not. */
  ghost predicate LiteralEnds(text: seq<byte>, from: nat, to: nat)
    requires from < |text|
  {
    match LiteralLength(text[from + 1..])
    case None => to == |text| + 1
    case Some(k) => to == from + k + 2
  }

  /** The literal that starts at `from` has been read up to `json`. */
  ghost predicate LiteralLeft(text: seq<byte>, from: nat, json: nat) {
    && from < json <= |text|
    && LiteralLength(text[from + 1..]) == Further(json - (from + 1), LiteralLength(text[json..]))
  }

  lemma LiteralStarts(text: seq<byte>, from: nat)
    requires from < |text|
    ensures LiteralLeft(text, from, from + 1)
  {
    hide LiteralLength;
  }

  lemma LiteralStep(text: seq<byte>, from: nat, json: nat)
    requires LiteralLeft(text, from, json) && json < |text| && text[json] != QUOTE
    ensures text[json] != BACKSLASH ==> LiteralLeft(text, from, json + 1)
    ensures text[json] == BACKSLASH && json + 1 == |text| ==> LiteralEnds(text, from, json + 2)
    ensures text[json] == BACKSLASH && json + 1 < |text| ==> LiteralLeft(text, from, json + 2)
  {
    TailOfTail(text, json);
    if json + 1 < |text| {
      PairOfTail(text, json);
    }
    LiteralLengthStep(text[json..]);
    hide LiteralLength;
  }

  lemma LiteralLengthStep(u: seq<byte>)
    requires u != [] && u[0] != QUOTE
    ensures u[0] != BACKSLASH ==> LiteralLength(u) == Further(1, LiteralLength(u[1..]))
    ensures u[0] == BACKSLASH && |u| == 1 ==> LiteralLength(u) == None
    ensures u[0] == BACKSLASH && |u| > 1 ==> LiteralLength(u) == Further(2, LiteralLength(u[2..]))
  {
  }

  lemma LiteralStops(text: seq<byte>, from: nat, json: nat)
    requires LiteralLeft(text, from, json) && (json < |text| ==> text[json] == QUOTE)
    ensures LiteralEnds(text, from, json + 1)
  {
    if json < |text| {
      TailOfTail(text, json);
      ScanQuote(text[json..]);
    } else {
      assert LiteralLength(text[json..]) == None;
    }
    hide LiteralLength;
  }

  lemma NothingMoved(a: seq<byte>, from: nat, out: nat)
    requires out <= from <= |a|
    ensures MovedDown(a, a, from, out, 0)
  {
  }

  lemma StillUnread(a: seq<byte>, was: seq<byte>, text: seq<byte>, from: nat, out: nat, json: nat)
    requires from <= json <= |text| && MovedDown(a, was, from, out, json - from) && Unread(was, text, from)
    ensures Unread(a, text, json)
  {
  }

  /**
   * The loop over a string literal, from its opening quote on. The terminator is at `n`; the loop is
   * abandoned where the library would read past it.
   */
  method CopyLiteral(a: array<byte>, from: nat, out: nat, n: nat, ghost text: seq<byte>) returns (json: nat)
    requires NulFree(text) && out <= from < |text| == n && Unread(a[..], text, from)
    modifies a
    ensures from < json <= n + 1 && LiteralEnds(text, from, json)
    ensures MovedDown(a[..], old(a[..]), from, out, json - from)
  {
    hide LiteralLength, MovedDown, LiteralLeft, LiteralEnds;
    ghost var was := a[..];
    NothingMoved(was, from, out);
    CopyByte(a, was, from, out, from, out);
    json := from + 1;
    StillUnread(a[..], was, text, from, out, json);
    LiteralStarts(text, from);
    while a[json] != 0 && a[json] != QUOTE
      invariant from < json <= n && n < a.Length == |was|
      invariant MovedDown(a[..], was, from, out, json - from)
      invariant Unread(a[..], text, json) && LiteralLeft(text, from, json)
      decreases n - json
    {
      LiteralStep(text, from, json);
      if a[json] == BACKSLASH {
        CopyByte(a, was, from, out, json, out + (json - from));
        json := json + 1;
      }
      CopyByte(a, was, from, out, json, out + (json - from));
      json := json + 1;
      if json > n {
        return;
      }
      StillUnread(a[..], was, text, from, out, json);
    }
    LiteralStops(text, from, json);
    CopyByte(a, was, from, out, json, out + (json - from));
    json := json + 1;
  }

  // ---------------------------------------------------------------------------------------------
  // Which texts the minifier stays inside of

  /** Where a reader of the text is: in code, in a comment, or in a literal. */
  datatype Lexer = Code | AfterSlash | LineComment | Block | BlockStar | Quoting | Escaped

  function Advance(l: Lexer, b: byte): Lexer {
    match l
    case Code => if b == QUOTE then Quoting else if b == SLASH then AfterSlash else Code
    case AfterSlash =>
      if b == SLASH then LineComment else if b == STAR then BlockStar else if b == QUOTE then Quoting else Code
    case LineComment => if b == NEWLINE then Code else LineComment
    case Block => if b == STAR then BlockStar else Block
    case BlockStar => if b == SLASH then Code else if b == STAR then BlockStar else Block
    case Quoting => if b == QUOTE then Code else if b == BACKSLASH then Escaped else Quoting
    case Escaped => Quoting
  }

  function Lexed(l: Lexer, s: seq<byte>): Lexer
    decreases s
  {
    if s == [] then l else Lexed(Advance(l, s[0]), s[1..])
  }

  predicate Inside(l: Lexer) { l.Block? || l.BlockStar? || l.Quoting? || l.Escaped? }

  /** The text ends inside a block comment or a string literal. */
  predicate Unclosed(s: seq<byte>) { Inside(Lexed(Code, s)) }

  lemma {:induction false} LineLexed(s: seq<byte>)
    ensures Inside(Lexed(LineComment, s)) <==> Unclosed(AfterLine(s))
  {
    if s != [] && s[0] != NEWLINE {
      LineLexed(s[1..]);
    }
  }

  lemma {:induction false} CommentLexed(s: seq<byte>)
    ensures Inside(Lexed(Block, s)) <==> AfterComment(s) == None || Unclosed(AfterComment(s).value)
  {
    if |s| >= 2 && s[0] == STAR && s[1] == SLASH {
      assert s[1..][1..] == s[2..];
    } else if s != [] {
      CommentLexed(s[1..]);
      BlockKeeps(s);
      AfterCommentStep(s);
      hide Lexed, AfterComment;
    }
  }

  /** Nothing but a closing mark ends a block comment. */
  lemma BlockKeeps(s: seq<byte>)
    requires s != [] && !(|s| >= 2 && s[0] == STAR && s[1] == SLASH)
    ensures Inside(Lexed(Block, s)) <==> Inside(Lexed(Block, s[1..]))
  {
    if |s| >= 2 {
      assert Lexed(BlockStar, s[1..]) == Lexed(Advance(BlockStar, s[1]), s[1..][1..]);
      assert Lexed(Block, s[1..]) == Lexed(Advance(Block, s[1]), s[1..][1..]);
    }
  }

  lemma {:induction false} LiteralLexed(s: seq<byte>)
    ensures Inside(Lexed(Quoting, s)) <==> LiteralLength(s) == None || Unclosed(s[LiteralLength(s).value + 1..])
  {
    if s != [] && s[0] != QUOTE {
      LiteralLengthStep(s);
      if s[0] != BACKSLASH {
        LiteralLexed(s[1..]);
        if LiteralLength(s).Some? { RestAfter(s, 1); }
        hide LiteralLength;
      } else if |s| > 1 {
        assert s[1..][1..] == s[2..];
        LiteralLexed(s[2..]);
        if LiteralLength(s).Some? { RestAfter(s, 2); }
        hide LiteralLength;
      }
    }
  }

  lemma RestAfter(s: seq<byte>, step: nat)
    requires step <= |s| && LiteralLength(s[step..]).Some?
    ensures s[step..][LiteralLength(s[step..]).value + 1..] == s[step + LiteralLength(s[step..]).value + 1..]
  {
  }

  /** The minified text of the rest decides, and the rest is unclosed exactly when the whole is. */
  ghost predicate RestDecides(s: seq<byte>, rest: seq<byte>) {
    |rest| < |s| && (Minified(s) == None <==> Minified(rest) == None) && (Unclosed(s) <==> Unclosed(rest))
  }

  lemma AfterLineDecides(s: seq<byte>)
    requires |s| > 1 && s[0] == SLASH && s[1] == SLASH
    ensures RestDecides(s, AfterLine(s[1..]))
  {
    assert Minified(s) == Minified(AfterLine(s[1..]));
    assert s[1..][1..] == s[2..];
    assert Lexed(AfterSlash, s[1..]) == Lexed(LineComment, s[2..]);
    assert Lexed(Code, s) == Lexed(AfterSlash, s[1..]);
    AfterLineStep(s[1..]);
    LineLexed(s[2..]);
    hide Minified, Lexed, AfterLine;
  }

  lemma AfterCommentDecides(s: seq<byte>)
    requires |s| > 1 && s[0] == SLASH && s[1] == STAR
    ensures AfterComment(s) == None ==> Minified(s) == None && Unclosed(s)
    ensures AfterComment(s).Some? ==> RestDecides(s, AfterComment(s).value)
  {
    assert Minified(s) == if AfterComment(s).Some? then Minified(AfterComment(s).value) else None;
    assert Lexed(AfterSlash, s[1..]) == Lexed(Block, s[1..]);
    assert Lexed(Code, s) == Lexed(AfterSlash, s[1..]);
    CommentLexed(s[1..]);
    AfterCommentStep(s);
    hide Minified, Lexed, AfterComment;
  }

  lemma AfterLiteralDecides(s: seq<byte>)
    requires s != [] && s[0] == QUOTE
    ensures LiteralLength(s[1..]) == None ==> Minified(s) == None && Unclosed(s)
    ensures LiteralLength(s[1..]).Some? ==> RestDecides(s, s[LiteralLength(s[1..]).value + 2..])
  {
    assert Lexed(Code, s) == Lexed(Quoting, s[1..]);
    LiteralLexed(s[1..]);
    var k := LiteralLength(s[1..]);
    if k.Some? {
      assert s[1..][k.value + 1..] == s[k.value + 2..];
      assert Minified(s) == Prefixed(s[..k.value + 2], Minified(s[k.value + 2..]));
    } else {
      assert Minified(s) == None;
    }
    hide Minified, Lexed, LiteralLength;
  }

  lemma AfterByteDecides(s: seq<byte>)
    requires s != [] && s[0] != QUOTE
    requires !(s[0] == SLASH && |s| > 1 && (s[1] == SLASH || s[1] == STAR))
    ensures RestDecides(s, s[1..])
  {
    assert Minified(s) == None <==> Minified(s[1..]) == None;
    assert Lexed(Code, s) == Lexed(if s[0] == SLASH then AfterSlash else Code, s[1..]);
    if s[0] == SLASH { SlashIsCode(s[1..]); }
    hide Minified, Lexed;
  }

  /** The minified text exists exactly when every block comment and every literal is closed. */
  lemma {:induction false} MinifiedUnlessUnclosed(s: seq<byte>)
    ensures Minified(s) == None <==> Unclosed(s)
    decreases |s|
  {
    if s == [] {
      MinifiedNothing(s);
    } else {
      hide Minified, Unclosed, AfterLine, AfterComment, LiteralLength;
      if s[0] == QUOTE {
        AfterLiteralDecides(s);
        if LiteralLength(s[1..]).Some? { MinifiedUnlessUnclosed(s[LiteralLength(s[1..]).value + 2..]); }
      } else if s[0] == SLASH && |s| > 1 && s[1] == SLASH {
        AfterLineDecides(s);
        MinifiedUnlessUnclosed(AfterLine(s[1..]));
      } else if s[0] == SLASH && |s| > 1 && s[1] == STAR {
        AfterCommentDecides(s);
        if AfterComment(s).Some? { MinifiedUnlessUnclosed(AfterComment(s).value); }
      } else {
        AfterByteDecides(s);
        MinifiedUnlessUnclosed(s[1..]);
      }
    }
  }

  /** A slash that starts no comment is like any other byte. */
  lemma SlashIsCode(s: seq<byte>)
    requires s == [] || (s[0] != SLASH && s[0] != STAR)
    ensures Inside(Lexed(AfterSlash, s)) <==> Inside(Lexed(Code, s))
  {
  }

  /**
   * What a reader of the text keeps of it: everything but blanks in code and comments. A slash is
   * held back until the next byte shows that it starts no comment.
   */
  function KeptFrom(l: Lexer, s: seq<byte>): seq<byte>
    decreases s
  {
    if s == [] then if l.AfterSlash? then [47] else []
    else
      var rest := KeptFrom(Advance(l, s[0]), s[1..]);
      match l
      case Code => if s[0] in {32, 9, 13, 10, 47} then rest else [s[0]] + rest
      case AfterSlash =>
        if s[0] in {47, 42} then rest else if s[0] in {32, 9, 13, 10} then [47] + rest else [47] + ([s[0]] + rest)
      case Quoting => [s[0]] + rest
      case Escaped => [s[0]] + rest
      case _ => rest
  }

  lemma {:induction false} KeptOfLine(s: seq<byte>)
    ensures KeptFrom(LineComment, s) == KeptFrom(Code, AfterLine(s))
  {
    if s != [] && s[0] != NEWLINE {
      KeptOfLine(s[1..]);
    }
  }

  lemma {:induction false} KeptOfComment(s: seq<byte>)
    requires AfterComment(s).Some?
    ensures KeptFrom(Block, s) == KeptFrom(Code, AfterComment(s).value)
  {
    AfterCommentStep(s);
    if s[0] == STAR && s[1] == SLASH {
      assert s[1..][1..] == s[2..];
      assert KeptFrom(Block, s) == KeptFrom(BlockStar, s[1..]);
    } else {
      KeptOfComment(s[1..]);
      StarIsDropped(s);
      hide AfterComment, KeptFrom;
    }
  }

  lemma StarIsDropped(s: seq<byte>)
    requires |s| > 1 && !(s[0] == STAR && s[1] == SLASH)
    ensures KeptFrom(Block, s) == KeptFrom(Block, s[1..])
  {
    assert KeptFrom(BlockStar, s[1..]) == KeptFrom(Advance(BlockStar, s[1]), s[1..][1..]);
    assert KeptFrom(Block, s[1..]) == KeptFrom(Advance(Block, s[1]), s[1..][1..]);
  }

  lemma KeptInLiteral(s: seq<byte>, step: nat)
    requires s != [] && s[0] != QUOTE && step == (if s[0] == BACKSLASH then 2 else 1) <= |s|
    ensures KeptFrom(Quoting, s) == s[..step] + KeptFrom(Quoting, s[step..])
  {
    if step == 2 {
      assert s[1..][1..] == s[2..];
      assert KeptFrom(Escaped, s[1..]) == [s[1]] + KeptFrom(Quoting, s[2..]);
    }
  }

  lemma {:induction false} KeptOfLiteral(s: seq<byte>, n: nat)
    requires LiteralLength(s) == Some(n)
    ensures KeptFrom(Quoting, s) == s[..n + 1] + KeptFrom(Code, s[n + 1..])
    decreases s
  {
    if s[0] == QUOTE {
      assert s[..1] == [s[0]];
    } else {
      LiteralLengthStep(s);
      hide LiteralLength, KeptFrom;
      var step := if s[0] == BACKSLASH then 2 else 1;
      KeptInLiteral(s, step);
      KeptOfLiteral(s[step..], n - step);
      LiteralApart(s, step, n);
      Assoc(s[..step], s[step..][..n - step + 1], KeptFrom(Code, s[n + 1..]));
    }
  }

  lemma LiteralApart(s: seq<byte>, step: nat, n: nat)
    requires step <= n < |s|
    ensures s[step..][n - step + 1..] == s[n + 1..] && s[..n + 1] == s[..step] + s[step..][..n - step + 1]
  {
  }

  lemma KeptOfSlash(s: seq<byte>)
    requires s == [] || (s[0] != SLASH && s[0] != STAR)
    ensures KeptFrom(AfterSlash, s) == [47] + KeptFrom(Code, s)
  {
  }

  /** The minified text is the text without its blanks and comments, and with its literals as they are. */
  lemma {:induction false} MinifiedIsKept(s: seq<byte>)
    requires !Unclosed(s)
    ensures Minified(s) == Some(KeptFrom(Code, s))
    decreases |s|
  {
    if s != [] {
      hide Unclosed, AfterLine, AfterComment, LiteralLength;
      if s[0] == QUOTE {
        KeptAfterLiteral(s);
      } else if s[0] == SLASH && |s| > 1 && s[1] == SLASH {
        AfterLineDecides(s);
        MinifiedIsKept(AfterLine(s[1..]));
        KeptAfterLine(s);
      } else if s[0] == SLASH && |s| > 1 && s[1] == STAR {
        AfterCommentDecides(s);
        MinifiedIsKept(AfterComment(s).value);
        KeptAfterComment(s);
      } else {
        AfterByteDecides(s);
        MinifiedIsKept(s[1..]);
        KeptAfterByte(s);
      }
    }
  }

  lemma {:induction false} KeptAfterLiteral(s: seq<byte>)
    requires s != [] && s[0] == QUOTE && !Unclosed(s)
    ensures Minified(s) == Some(KeptFrom(Code, s))
    decreases |s|, 0
  {
    AfterLiteralDecides(s);
    var n := LiteralLength(s[1..]).value;
    var rest := s[n + 2..];
    MinifiedIsKept(rest);
    KeptOfLiteral(s[1..], n);
    assert Minified(s) == Prefixed(s[..n + 2], Minified(rest));
    assert KeptFrom(Code, s) == [s[0]] + KeptFrom(Quoting, s[1..]);
    hide Minified, KeptFrom, Unclosed, LiteralLength;
    assert s[1..][n + 1..] == rest;
    assert s[..n + 2] == [s[0]] + s[1..][..n + 1];
    Assoc([s[0]], s[1..][..n + 1], KeptFrom(Code, rest));
  }

  lemma KeptAfterLine(s: seq<byte>)
    requires |s| > 1 && s[0] == SLASH && s[1] == SLASH
    ensures KeptFrom(Code, s) == KeptFrom(Code, AfterLine(s[1..])) && Minified(s) == Minified(AfterLine(s[1..]))
  {
    assert s[1..][1..] == s[2..];
    assert KeptFrom(AfterSlash, s[1..]) == KeptFrom(LineComment, s[2..]);
    assert KeptFrom(Code, s) == KeptFrom(AfterSlash, s[1..]);
    AfterLineStep(s[1..]);
    KeptOfLine(s[2..]);
  }

  lemma KeptAfterComment(s: seq<byte>)
    requires |s| > 1 && s[0] == SLASH && s[1] == STAR && AfterComment(s).Some?
    ensures KeptFrom(Code, s) == KeptFrom(Code, AfterComment(s).value)
    ensures Minified(s) == Minified(AfterComment(s).value)
  {
    assert KeptFrom(AfterSlash, s[1..]) == KeptFrom(Block, s[1..]);
    assert KeptFrom(Code, s) == KeptFrom(AfterSlash, s[1..]);
    AfterCommentStep(s);
    KeptOfComment(s[1..]);
  }

  lemma KeptAfterByte(s: seq<byte>)
    requires s != [] && s[0] != QUOTE && !(s[0] == SLASH && |s| > 1 && (s[1] == SLASH || s[1] == STAR))
    requires Minified(s[1..]) == Some(KeptFrom(Code, s[1..]))
    ensures Minified(s) == Some(KeptFrom(Code, s))
  {
    if s[0] == SLASH {
      KeptOfSlash(s[1..]);
    }
  }

  /** The shortest texts on which the minifier runs past the terminator. */
  lemma MinifyOverruns()
    ensures Unclosed([QUOTE]) && Unclosed([SLASH, STAR]) && Unclosed([QUOTE, BACKSLASH])
  {
    assert [SLASH, STAR][1..] == [STAR] && [QUOTE, BACKSLASH][1..] == [BACKSLASH];
    assert Lexed(Quoting, []) == Quoting && Lexed(BlockStar, []) == BlockStar && Lexed(Escaped, []) == Escaped;
    assert Lexed(AfterSlash, [STAR]) == BlockStar && Lexed(Quoting, [BACKSLASH]) == Escaped;
  }

  // ---------------------------------------------------------------------------------------------
  // The whole loop

  /** What one round makes of the text: the bytes `from..to` are dropped or kept, or the end is overrun. */
  ghost predicate Dropped(text: seq<byte>, from: nat, to: nat)
    requires from <= |text|
  {
    if to > |text| then Minified(text[from..]) == None
    else from < to && Minified(text[from..]) == Minified(text[to..])
  }

  ghost predicate Kept(text: seq<byte>, from: nat, to: nat)
    requires from <= |text|
  {
    if to > |text| then Minified(text[from..]) == None
    else from < to && Minified(text[from..]) == Prefixed(text[from..to], Minified(text[to..]))
  }

  lemma DropsBlank(text: seq<byte>, from: nat)
    requires from < |text| && IsBlank(text[from])
    ensures Dropped(text, from, from + 1)
  {
    TailOfTail(text, from);
  }

  lemma DropsLine(text: seq<byte>, from: nat, to: nat)
    requires from + 1 < |text| && text[from] == SLASH && text[from + 1] == SLASH
    requires from <= to <= |text| && text[to..] == AfterLine(text[from..])
    ensures Dropped(text, from, to)
  {
    TailOfTail(text, from);
    PairOfTail(text, from);
    AfterLineStep(text[from..]);
    hide AfterLine;
  }

  lemma DropsComment(text: seq<byte>, from: nat, to: nat)
    requires from + 1 < |text| && text[from] == SLASH && text[from + 1] == STAR
    requires from < to && CommentEnds(text, from, to)
    ensures Dropped(text, from, to)
  {
    PairOfTail(text, from);
    hide AfterComment;
  }

  lemma KeepsLiteral(text: seq<byte>, from: nat, to: nat)
    requires from < |text| && text[from] == QUOTE && LiteralEnds(text, from, to)
    ensures Kept(text, from, to)
  {
    TailOfTail(text, from);
    var u := text[from..];
    if LiteralLength(u[1..]).Some? {
      var k := LiteralLength(u[1..]).value;
      assert u[..k + 2] == text[from..to] && u[k + 2..] == text[to..];
    }
    hide LiteralLength;
  }

  lemma KeepsByte(text: seq<byte>, from: nat)
    requires from < |text| && !IsBlank(text[from]) && text[from] != QUOTE
    requires !(text[from] == SLASH && from + 1 < |text| && (text[from + 1] == SLASH || text[from + 1] == STAR))
    ensures Kept(text, from, from + 1)
  {
    TailOfTail(text, from);
    if from + 1 < |text| {
      PairOfTail(text, from);
    }
    assert text[from..from + 1] == [text[from]];
  }

  /** One round that drops bytes: blanks and comments. */
  method DropRound(a: array<byte>, from: nat, ghost text: seq<byte>) returns (to: nat)
    requires NulFree(text) && from < |text| && Unread(a[..], text, from)
    requires IsBlank(a[from]) || (a[from] == SLASH && (a[from + 1] == SLASH || a[from + 1] == STAR))
    ensures Dropped(text, from, to)
  {
    hide Minified, AfterLine, AfterComment, CommentEnds, Dropped;
    if IsBlank(a[from]) {
      DropsBlank(text, from);
      to := from + 1;
    } else if a[from + 1] == SLASH {
      to := SkipLine(a, from, text);
      DropsLine(text, from, to);
    } else {
      to := SkipComment(a, from, text);
      DropsComment(text, from, to);
    }
  }

  /** One round that copies bytes: a literal, or any other byte. */
  method KeepRound(a: array<byte>, from: nat, out: nat, n: nat, ghost text: seq<byte>) returns (to: nat)
    requires NulFree(text) && out <= from < |text| == n && Unread(a[..], text, from)
    requires !IsBlank(a[from]) && !(a[from] == SLASH && (a[from + 1] == SLASH || a[from + 1] == STAR))
    modifies a
    ensures from < to <= n + 1 && Kept(text, from, to) && MovedDown(a[..], old(a[..]), from, out, to - from)
  {
    hide Minified, LiteralLength, MovedDown, Kept, LiteralEnds;
    if a[from] == QUOTE {
      to := CopyLiteral(a, from, out, n, text);
      KeepsLiteral(text, from, to);
    } else {
      KeepsByte(text, from);
      NothingMoved(a[..], from, out);
      CopyByte(a, a[..], from, out, from, out);
      to := from + 1;
    }
  }

  /**
   * `cJSON_Minify` on a C string with its terminator at `n`. It reads past the terminator exactly on
   * unclosed texts; on all others the array ends up holding the minified text and a terminator.
   */
  method RunMinify(a: array<byte>, n: nat) returns (overrun: bool, m: nat)
    requires n < a.Length && a[n] == 0 && NulFree(a[..n])
    modifies a
    ensures overrun <==> Unclosed(old(a[..n]))
    ensures !overrun ==> Minified(old(a[..n])).Some?
    ensures !overrun ==> m <= n && a[..m] == Minified(old(a[..n])).value && a[m] == 0
  {
    hide Minified, Progress, Unclosed, Dropped, Kept, MovedDown;
    ghost var text := a[..n];
    MinifiedUnlessUnclosed(text);
    var json, into := 0, 0;
    ProgressStarts(a[..], text);
    ProgressIsUnread(a[..], text, 0, 0);
    while a[json] != 0
      invariant 0 <= into <= json <= n
      invariant Progress(a[..], text, json, into) && Unread(a[..], text, json)
      decreases n - json
    {
      ghost var before := a[..];
      var from := json;
      if IsBlank(a[json]) || (a[json] == SLASH && (a[json + 1] == SLASH || a[json + 1] == STAR)) {
        json := DropRound(a, from, text);
        AfterDrop(before, text, from, json, into);
      } else {
        json := KeepRound(a, from, into, n, text);
        AfterKeep(before, a[..], text, from, json, into);
        into := into + (json - from);
      }
      if json > n {
        return true, into;
      }
      ProgressIsUnread(a[..], text, json, into);
    }
    ProgressIs(a[..], text, json, into);
    MinifiedNothing(text[n..]);
    assert a[..into] + [] == a[..into];
    a[into] := 0;
    overrun, m := false, into;
  }

  lemma AfterDrop(a: seq<byte>, text: seq<byte>, from: nat, to: nat, out: nat)
    requires Progress(a, text, from, out) && Dropped(text, from, to)
    ensures if to > |text| then Minified(text) == None else from < to && Progress(a, text, to, out)
  {
    hide Minified;
    if to <= |text| {
      ProgressSkips(a, text, from, to, out);
    }
  }

  lemma AfterKeep(a: seq<byte>, b: seq<byte>, text: seq<byte>, from: nat, to: nat, out: nat)
    requires Progress(a, text, from, out) && Kept(text, from, to) && from < to && MovedDown(b, a, from, out, to - from)
    ensures if to > |text| then Minified(text) == None else Progress(b, text, to, out + (to - from))
  {
    hide Minified;
    if to <= |text| {
      MovedSlices(b, a, from, out, to - from);
      assert a[from..to] == a[from..|text|][..to - from] == text[from..][..to - from] == text[from..to];
      hide MovedDown;
      ProgressCopies(a, b, text, from, to, out);
    }
  }

  lemma MinifiedNothing(s: seq<byte>)
    requires s == []
    ensures Minified(s) == Some([])
  {
  }

  lemma ProgressIs(a: seq<byte>, text: seq<byte>, from: nat, out: nat)
    requires Progress(a, text, from, out)
    ensures |a| > |text| && out <= from <= |text| && a[from..|text|] == text[from..]
    ensures Minified(text) == Prefixed(a[..out], Minified(text[from..]))
  {
    hide Minified;
  }

  // ---------------------------------------------------------------------------------------------
  // Deleting a character everywhere, as the app does with newlines and tabs

  function Without(s: seq<byte>, b: byte): seq<byte> {
    if s == [] then [] else (if s[0] == b then [] else [s[0]]) + Without(s[1..], b)
  }

  /** `std::remove` followed by `erase`: the kept bytes move forward, the rest is cut off. */
  method Erase(a: array<byte>, n: nat, b: byte) returns (m: nat)
    requires n <= a.Length
    modifies a
    ensures m <= n && a[..m] == Without(old(a[..n]), b)
  {
    hide Without;
    ghost var text := a[..n];
    m := 0;
    assert text[0..] == text && a[..0] + Without(text, b) == Without(text, b);
    for i := 0 to n
      invariant m <= i
      invariant forall k :: i <= k < n ==> a[k] == text[k]
      invariant a[..m] + Without(text[i..], b) == Without(text, b)
    {
      ghost var kept := a[..m];
      WithoutStep(text, i, b);
      if a[i] != b {
        a[m] := a[i];
        m := m + 1;
        Assoc(kept, [text[i]], Without(text[i + 1..], b));
        assert a[..m] == kept + [text[i]];
      }
    }
    WithoutNothing(text[n..], b);
    assert a[..m] + [] == a[..m];
  }

  lemma WithoutNothing(s: seq<byte>, b: byte)
    requires s == []
    ensures Without(s, b) == []
  {
  }

  lemma WithoutStep(s: seq<byte>, i: nat, b: byte)
    requires i < |s|
    ensures Without(s[i..], b) == (if s[i] == b then [] else [s[i]]) + Without(s[i + 1..], b)
  {
    assert s[i..][1..] == s[i + 1..];
  }

  lemma {:induction false} WithoutConcat(s: seq<byte>, t: seq<byte>, b: byte)
    ensures Without(s + t, b) == Without(s, b) + Without(t, b)
  {
    if s == [] {
      assert s + t == t;
    } else {
      TailOfConcat(s, t);
      WithoutConcat(s[1..], t, b);
      Assoc(if s[0] == b then [] else [s[0]], Without(s[1..], b), Without(t, b));
    }
  }

  lemma {:induction false} WithoutAbsent(s: seq<byte>, b: byte)
    requires b !in s
    ensures Without(s, b) == s
  {
    if s != [] { WithoutAbsent(s[1..], b); }
  }

  /** The report text the app hands on: newlines go first, then tabs. */
  function Stripped(s: seq<byte>): seq<byte> { Without(Without(s, NEWLINE), TAB) }

  lemma StrippedConcat(s: seq<byte>, t: seq<byte>)
    ensures Stripped(s + t) == Stripped(s) + Stripped(t)
  {
    hide Without;
    WithoutConcat(s, t, NEWLINE);
    WithoutConcat(Without(s, NEWLINE), Without(t, NEWLINE), TAB);
  }

  lemma StrippedKeeps(s: seq<byte>)
    requires NEWLINE !in s && TAB !in s
    ensures Stripped(s) == s
  {
    hide Without;
    WithoutAbsent(s, NEWLINE);
    WithoutAbsent(s, TAB);
  }

  lemma {:induction false} EscapeHidesControls(t: seq<byte>)
    ensures NEWLINE !in Escape(t) && TAB !in Escape(t)
  {
    if t != [] { EscapeHidesControls(t[1..]); }
  }

  lemma StrippedQuoted(t: seq<byte>)
    ensures Stripped(Quoted(t)) == Quoted(t)
  {
    EscapeHidesControls(t);
    hide Escape, Stripped;
    StrippedKeeps(Quoted(t));
  }

  lemma StrippedBlanks()
    ensures Stripped([NEWLINE]) == [] && Stripped([TAB]) == [] && Stripped([SPACE]) == [SPACE] && Stripped([]) == []
  {
    assert Without([NEWLINE], NEWLINE) == [] && Without([TAB], NEWLINE) == [TAB] && Without([TAB], TAB) == [];
    StrippedKeeps([SPACE]);
  }

  lemma {:induction false} StrippedTabs(n: nat)
    ensures Stripped(Tabs(FORMATTED, n)) == [] && Tabs(STRIPPED, n) == []
  {
    hide Stripped;
    StrippedBlanks();
    if n > 0 {
      StrippedTabs(n - 1);
      StrippedConcat([TAB], Tabs(FORMATTED, n - 1));
    }
  }

  /** Deleting newlines and tabs turns the formatted layout into the stripped one and loses nothing else. */
  lemma {:induction false} StrippedText(j: Json, d: nat)
    requires Printable(j)
    ensures Stripped(Text(FORMATTED, j, d)) == Text(STRIPPED, j, d)
    decreases j, 0
  {
    hide Stripped, Quoted, StrtodLength, ItemsText, MembersText;
    match j
    case String(t) => StrippedQuoted(t);
    case Array(items) =>
      StrippedKeeps([LBRACKET]);
      StrippedConcat([LBRACKET], ItemsText(FORMATTED, items, d + 1));
      StrippedItems(items, d + 1);
    case Object(ms) =>
      StrippedKeeps([LBRACE]);
      StrippedBlanks();
      StrippedConcat([LBRACE], [NEWLINE] + MembersText(FORMATTED, ms, d + 1));
      StrippedConcat([NEWLINE], MembersText(FORMATTED, ms, d + 1));
      StrippedMembers(ms, d + 1);
    case _ => StrippedKeeps(Text(FORMATTED, j, d));
  }

  lemma {:induction false} StrippedItems(items: Items, d: nat)
    requires PrintableItems(items)
    ensures Stripped(ItemsText(FORMATTED, items, d)) == ItemsText(STRIPPED, items, d)
    ensures Stripped(ItemsRest(FORMATTED, items, d)) == ItemsRest(STRIPPED, items, d)
    decreases items, 1
  {
    hide Stripped, Text;
    StrippedKeeps([RBRACKET]);
    StrippedKeeps([COMMA]);
    StrippedBlanks();
    if items.Item? {
      var t, more := Text(FORMATTED, items.value, d), ItemsRest(FORMATTED, items.next, d);
      StrippedText(items.value, d);
      StrippedItems(items.next, d);
      StrippedConcat(t, more);
      StrippedConcat([COMMA], [SPACE] + (t + more));
      StrippedConcat([SPACE], t + more);
    }
  }

  lemma StrippedClosing(d: nat)
    ensures Stripped(Closing(FORMATTED, d)) == Closing(STRIPPED, d)
  {
    hide Stripped, Tabs;
    var n := if d == 0 then 0 else d - 1;
    StrippedTabs(n);
    StrippedKeeps([RBRACE]);
    StrippedConcat(Tabs(FORMATTED, n), [RBRACE]);
  }

  lemma {:induction false} StrippedMember(k: seq<byte>, v: Json, d: nat)
    requires Printable(v)
    ensures Stripped(MemberText(FORMATTED, k, v, d)) == MemberText(STRIPPED, k, v, d)
    decreases v, 1
  {
    hide Stripped, Tabs, Quoted, Text;
    var t := Text(FORMATTED, v, d);
    StrippedTabs(d);
    StrippedQuoted(k);
    StrippedKeeps([COLON]);
    StrippedBlanks();
    StrippedText(v, d);
    StrippedConcat(Tabs(FORMATTED, d), Quoted(k) + ([COLON] + ([TAB] + t)));
    StrippedConcat(Quoted(k), [COLON] + ([TAB] + t));
    StrippedConcat([COLON], [TAB] + t);
    StrippedConcat([TAB], t);
  }

  lemma {:induction false} StrippedMembers(ms: Members, d: nat)
    requires PrintableMembers(ms)
    ensures Stripped(MembersText(FORMATTED, ms, d)) == MembersText(STRIPPED, ms, d)
    ensures Stripped(MembersRest(FORMATTED, ms, d)) == MembersRest(STRIPPED, ms, d)
    decreases ms, 1
  {
    hide Stripped, MemberText, Closing;
    StrippedBlanks();
    StrippedKeeps([COMMA]);
    if ms.Member? {
      var t, more := MemberText(FORMATTED, ms.key, ms.value, d), MembersRest(FORMATTED, ms.next, d);
      StrippedMember(ms.key, ms.value, d);
      StrippedMembers(ms.next, d);
      StrippedConcat(t, more);
      StrippedConcat([COMMA], [NEWLINE] + (t + more));
      StrippedConcat([NEWLINE], t + more);
    } else {
      StrippedClosing(d);
      StrippedConcat([NEWLINE], Closing(FORMATTED, d));
    }
  }

  /** The stripped report still parses to the same tree, exactly within the nesting limit. */
  lemma StrippedReportParses(j: Json)
    requires Printable(j)
    ensures Parse(Stripped(Text(FORMATTED, j, 0))) == if Nesting(j) <= NESTING_LIMIT then Some(j) else None
  {
    hide Text, Stripped, ParseWithOpts;
    StrippedText(j, 0);
    PrintParseRoundTrip(STRIPPED, j, false);
  }
}
