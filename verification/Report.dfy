/**
 * The report pipeline of the app: print the tree, delete newlines and tabs, repair the UTF-8, and
 * hand the text on. The repair acts on the strings and keys only; the structure survives it.
 */
module Report {
  import opened Bytes
  import U = Utf8Core
  import C = Utf8Checked
  import opened JsonTree
  import opened JsonParse
  import opened JsonRoundTrip
  import opened JsonMinify

  const REPLACEMENT_MARKER: U.uint32 := 0xfffd

  function Mend(s: seq<byte>): seq<byte> { C.Mend(s, REPLACEMENT_MARKER) }

  // ---------------------------------------------------------------------------------------------
  // The repair of ASCII text around a string

  lemma MendSplits(s: seq<byte>, t: seq<byte>)
    requires t != [] && t[0] < 0x80
    ensures Mend(s + t) == Mend(s) + Mend(t)
  {
    hide C.Mend;
    C.MendSplitsAtAscii(s, t, REPLACEMENT_MARKER);
  }

  lemma {:induction false} MendAsciiPrefix(a: seq<byte>, s: seq<byte>)
    requires forall i :: 0 <= i < |a| ==> a[i] < 0x80
    ensures Mend(a + s) == a + Mend(s)
  {
    hide C.Mend;
    if a == [] {
      assert a + s == s && a + Mend(s) == Mend(s);
    } else {
      C.MendAsciiHead(a[0], a[1..] + s, REPLACEMENT_MARKER);
      MendAsciiPrefix(a[1..], s);
      Assoc([a[0]], a[1..], s);
      Assoc([a[0]], a[1..], Mend(s));
      assert [a[0]] + a[1..] == a;
    }
  }

  lemma MendNothing()
    ensures Mend([]) == []
  {
  }

  // ---------------------------------------------------------------------------------------------
  // Escaping and repairing commute: one touches ASCII octets only, the other all but those.

  /** Number of octets above 0x7f at the head. */
  function HighRun(t: seq<byte>): (n: nat)
    ensures n <= |t|
  {
    if t != [] && t[0] >= 0x80 then 1 + HighRun(t[1..]) else 0
  }

  lemma {:induction false} HighRunIsHigh(t: seq<byte>)
    ensures forall i :: 0 <= i < HighRun(t) ==> t[i] >= 0x80
    ensures HighRun(t) < |t| ==> t[HighRun(t)] < 0x80
  {
    if t != [] && t[0] >= 0x80 {
      HighRunIsHigh(t[1..]);
      forall i | 1 <= i < HighRun(t) ensures t[i] >= 0x80 { assert t[i] == t[1..][i - 1]; }
    }
  }

  lemma {:induction false} EscapeConcat(s: seq<byte>, t: seq<byte>)
    ensures Escape(s + t) == Escape(s) + Escape(t)
  {
    hide EscapeByte;
    if s == [] {
      assert s + t == t;
    } else {
      TailOfConcat(s, t);
      EscapeConcat(s[1..], t);
      Assoc(EscapeByte(s[0]), Escape(s[1..]), Escape(t));
    }
  }

  lemma {:induction false} EscapeHigh(h: seq<byte>)
    requires forall i :: 0 <= i < |h| ==> h[i] >= 0x80
    ensures Escape(h) == h
  {
    if h != [] { EscapeHigh(h[1..]); }
  }

  lemma {:induction false} AsciiFree(s: seq<byte>)
    requires C.AsciiOf(s) == []
    ensures forall i :: 0 <= i < |s| ==> s[i] >= 0x80
  {
    if s != [] {
      AsciiFree(s[1..]);
      forall i | 1 <= i < |s| ensures s[i] >= 0x80 { assert s[i] == s[1..][i - 1]; }
    }
  }

  lemma MendHigh(h: seq<byte>)
    requires forall i :: 0 <= i < |h| ==> h[i] >= 0x80
    ensures Escape(Mend(h)) == Mend(h)
  {
    hide C.Mend, C.AsciiOf, Escape;
    C.NoAscii(h);
    C.MendKeepsAscii(h, REPLACEMENT_MARKER);
    AsciiFree(Mend(h));
    EscapeHigh(Mend(h));
  }

  lemma EscapeByteIsAscii(b: byte)
    requires b < 0x80
    ensures forall i :: 0 <= i < |EscapeByte(b)| ==> EscapeByte(b)[i] < 0x80
  {
  }

  /** Escaped text from an ASCII octet on starts with an ASCII octet. */
  lemma EscapeStartsAscii(t: seq<byte>)
    requires t != [] && t[0] < 0x80
    ensures Escape(t) != [] && Escape(t)[0] < 0x80
  {
  }

  lemma {:induction false} MendCommutesWithEscape(t: seq<byte>)
    ensures Mend(Escape(t)) == Escape(Mend(t))
    decreases |t|
  {
    if t == [] {
      MendNothing();
    } else if t[0] < 0x80 {
      MendCommutesAscii(t);
    } else {
      hide Mend, Escape;
      var n := HighRun(t);
      var h, rest := t[..n], t[n..];
      HighRunIsHigh(t);
      hide HighRun;
      assert t == h + rest;
      EscapeConcat(h, rest);
      EscapeHigh(h);
      MendHigh(h);
      if rest == [] {
        MendNothing();
        assert h + [] == h;
        EscapeOfNothing();
      } else {
        MendCommutesAscii(rest);
        EscapeStartsAscii(rest);
        MendSplits(h, Escape(rest));
        MendSplits(h, rest);
        EscapeConcat(Mend(h), Mend(rest));
      }
    }
  }

  lemma EscapeOfNothing()
    ensures Escape([]) == []
  {
  }

  lemma {:induction false} MendCommutesAscii(t: seq<byte>)
    requires t != [] && t[0] < 0x80
    ensures Mend(Escape(t)) == Escape(Mend(t))
    decreases |t|, 0
  {
    hide Mend;
    var b, rest := t[0], t[1..];
    MendCommutesWithEscape(rest);
    EscapeByteIsAscii(b);
    MendAsciiPrefix(EscapeByte(b), Escape(rest));
    MendAsciiPrefix([b], rest);
    assert t == [b] + rest && ([b] + Mend(rest))[1..] == Mend(rest);
    hide EscapeByte;
  }

  lemma MendQuoted(t: seq<byte>, s: seq<byte>)
    requires s == [] || s[0] < 0x80
    ensures Mend(Quoted(t) + s) == Quoted(Mend(t)) + Mend(s)
  {
    hide Mend, Escape;
    var tail := [QUOTE] + s;
    Assoc(Escape(t), [QUOTE], s);
    Assoc([QUOTE], Escape(t) + [QUOTE], s);
    MendAsciiPrefix([QUOTE], Escape(t) + tail);
    MendSplits(Escape(t), tail);
    MendAsciiPrefix([QUOTE], s);
    MendCommutesWithEscape(t);
    Assoc(Escape(Mend(t)), [QUOTE], Mend(s));
    Assoc([QUOTE], Escape(Mend(t)) + [QUOTE], Mend(s));
  }

  // ---------------------------------------------------------------------------------------------
  // Trees

  /** The tree with every string and key repaired. */
  function Mended(j: Json): Json {
    match j
    case String(t) => String(Mend(t))
    case Array(items) => Array(MendedItems(items))
    case Object(ms) => Object(MendedMembers(ms))
    case _ => j
  }

  function MendedItems(items: Items): Items {
    match items
    case NoItem => NoItem
    case Item(v, next) => Item(Mended(v), MendedItems(next))
  }

  function MendedMembers(ms: Members): Members {
    match ms
    case NoMember => NoMember
    case Member(k, v, next) => Member(Mend(k), Mended(v), MendedMembers(next))
  }

  ghost predicate Ascii(s: seq<byte>) { forall i :: 0 <= i < |s| ==> s[i] < 0x80 }

  ghost predicate AsciiStyle(st: Style) { Ascii(st.space) && Ascii(st.newline) && Ascii(st.tab) }

  ghost predicate AsciiHead(s: seq<byte>) { s == [] || s[0] < 0x80 }

  /** Repairing printed text is printing the repaired tree. */
  lemma {:induction false} MendText(st: Style, j: Json, d: nat, s: seq<byte>)
    requires AsciiStyle(st) && Printable(j) && AsciiHead(s)
    ensures Mend(Text(st, j, d) + s) == Text(st, Mended(j), d) + Mend(s)
    decreases j, 0
  {
    hide Mend, Quoted, StrtodLength, ItemsText, MembersText;
    match j
    case String(t) => MendQuoted(t, s);
    case Array(items) =>
      var body, body' := ItemsText(st, items, d + 1), ItemsText(st, MendedItems(items), d + 1);
      Assoc([LBRACKET], body, s);
      MendAsciiPrefix([LBRACKET], body + s);
      MendItems(st, items, d + 1, s);
      Assoc([LBRACKET], body', Mend(s));
    case Object(ms) =>
      var body, body' := MembersText(st, ms, d + 1), MembersText(st, MendedMembers(ms), d + 1);
      Assoc([LBRACE], st.newline + body, s);
      Assoc(st.newline, body, s);
      MendAsciiPrefix([LBRACE], st.newline + (body + s));
      MendAsciiPrefix(st.newline, body + s);
      MendMembers(st, ms, d + 1, s);
      Assoc(st.newline, body', Mend(s));
      Assoc([LBRACE], st.newline + body', Mend(s));
    case _ => MendAsciiPrefix(Text(st, j, d), s);
  }

  lemma {:induction false} MendItems(st: Style, items: Items, d: nat, s: seq<byte>)
    requires AsciiStyle(st) && PrintableItems(items) && AsciiHead(s)
    ensures Mend(ItemsText(st, items, d) + s) == ItemsText(st, MendedItems(items), d) + Mend(s)
    decreases items, 1
  {
    hide Mend, Text;
    match items
    case NoItem => MendAsciiPrefix([RBRACKET], s);
    case Item(v, next) =>
      var more := ItemsRest(st, next, d);
      Assoc(Text(st, v, d), more, s);
      MendText(st, v, d, more + s);
      MendItemsRest(st, next, d, s);
      Assoc(Text(st, Mended(v), d), ItemsRest(st, MendedItems(next), d), Mend(s));
  }

  lemma {:induction false} MendItemsRest(st: Style, items: Items, d: nat, s: seq<byte>)
    requires AsciiStyle(st) && PrintableItems(items) && AsciiHead(s)
    ensures Mend(ItemsRest(st, items, d) + s) == ItemsRest(st, MendedItems(items), d) + Mend(s)
    decreases items, 2
  {
    hide Mend, Text;
    match items
    case NoItem => MendAsciiPrefix([RBRACKET], s);
    case Item(_, _) =>
      var body, body' := ItemsText(st, items, d), ItemsText(st, MendedItems(items), d);
      Assoc([COMMA], st.space + body, s);
      Assoc(st.space, body, s);
      MendAsciiPrefix([COMMA], st.space + (body + s));
      MendAsciiPrefix(st.space, body + s);
      MendItems(st, items, d, s);
      Assoc(st.space, body', Mend(s));
      Assoc([COMMA], st.space + body', Mend(s));
  }

  lemma {:induction false} TabsAreAscii(st: Style, n: nat)
    requires Ascii(st.tab)
    ensures Ascii(Tabs(st, n))
  {
    if n > 0 { TabsAreAscii(st, n - 1); }
  }

  lemma {:induction false} MendMember(st: Style, k: seq<byte>, v: Json, d: nat, s: seq<byte>)
    requires AsciiStyle(st) && Printable(v) && AsciiHead(s)
    ensures Mend(MemberText(st, k, v, d) + s) == MemberText(st, Mend(k), Mended(v), d) + Mend(s)
    decreases v, 1
  {
    hide Mend, Text, Quoted, Tabs;
    var t, t' := Text(st, v, d), Text(st, Mended(v), d);
    MemberRegroup(st, k, t, d, s);
    TabsAreAscii(st, d);
    MendAsciiPrefix(Tabs(st, d), Quoted(k) + ([COLON] + (st.tab + (t + s))));
    MendQuoted(k, [COLON] + (st.tab + (t + s)));
    MendAsciiPrefix([COLON], st.tab + (t + s));
    MendAsciiPrefix(st.tab, t + s);
    MendText(st, v, d, s);
    MemberRegroup(st, Mend(k), t', d, Mend(s));
  }

  lemma MemberRegroup(st: Style, k: seq<byte>, t: seq<byte>, d: nat, s: seq<byte>)
    ensures Tabs(st, d) + (Quoted(k) + ([COLON] + (st.tab + t))) + s
         == Tabs(st, d) + (Quoted(k) + ([COLON] + (st.tab + (t + s))))
  {
    hide Quoted, Tabs;
    Assoc(Tabs(st, d), Quoted(k) + ([COLON] + (st.tab + t)), s);
    Assoc(Quoted(k), [COLON] + (st.tab + t), s);
    Assoc([COLON], st.tab + t, s);
    Assoc(st.tab, t, s);
  }

  lemma MendClosing(st: Style, d: nat, s: seq<byte>)
    requires AsciiStyle(st)
    ensures Mend(Closing(st, d) + s) == Closing(st, d) + Mend(s) && Ascii(Closing(st, d))
  {
    hide Mend, Tabs;
    TabsAreAscii(st, if d == 0 then 0 else d - 1);
    MendAsciiPrefix(Closing(st, d), s);
  }

  lemma {:induction false} MendMembers(st: Style, ms: Members, d: nat, s: seq<byte>)
    requires AsciiStyle(st) && PrintableMembers(ms) && AsciiHead(s)
    ensures Mend(MembersText(st, ms, d) + s) == MembersText(st, MendedMembers(ms), d) + Mend(s)
    decreases ms, 1
  {
    hide Mend, MemberText, Closing;
    match ms
    case NoMember => MendClosing(st, d, s);
    case Member(k, v, next) =>
      var more := MembersRest(st, next, d);
      Assoc(MemberText(st, k, v, d), more, s);
      MembersRestHead(st, next, d, s);
      MendMember(st, k, v, d, more + s);
      MendMembersRest(st, next, d, s);
      Assoc(MemberText(st, Mend(k), Mended(v), d), MembersRest(st, MendedMembers(next), d), Mend(s));
  }

  lemma MembersRestHead(st: Style, ms: Members, d: nat, s: seq<byte>)
    requires AsciiStyle(st)
    ensures AsciiHead(MembersRest(st, ms, d) + s)
  {
    hide MemberText, Mend;
    if ms.NoMember? { MendClosing(st, d, s); }
  }

  lemma {:induction false} MendMembersRest(st: Style, ms: Members, d: nat, s: seq<byte>)
    requires AsciiStyle(st) && PrintableMembers(ms) && AsciiHead(s)
    ensures Mend(MembersRest(st, ms, d) + s) == MembersRest(st, MendedMembers(ms), d) + Mend(s)
    decreases ms, 2
  {
    hide Mend, MemberText, Closing;
    var body, body' := MembersText(st, ms, d), MembersText(st, MendedMembers(ms), d);
    Assoc(st.newline, body, s);
    MendAsciiPrefix(st.newline, body + s);
    MendMembers(st, ms, d, s);
    Assoc(st.newline, body', Mend(s));
    if ms.Member? {
      Assoc([COMMA], st.newline + body, s);
      MendAsciiPrefix([COMMA], st.newline + (body + s));
      Assoc([COMMA], st.newline + body', Mend(s));
    }
  }

  // ---------------------------------------------------------------------------------------------
  // The repaired tree is printable and has the same shape.

  lemma {:induction false} MendIsNulFree(t: seq<byte>)
    requires NulFree(t)
    ensures NulFree(Mend(t))
  {
    C.MendKeepsAscii(t, REPLACEMENT_MARKER);
    var m := Mend(t);
    assert C.AsciiOf(m) == C.AsciiOf(t);
    hide Mend, C.Mend, C.AsciiOf;
    forall i | 0 <= i < |m| ensures m[i] != 0 {
      if m[i] < 0x80 {
        AsciiHas(m, i);
        AsciiCameFrom(t, m[i]);
      }
    }
  }

  lemma {:induction false} AsciiHas(s: seq<byte>, i: nat)
    requires i < |s| && s[i] < 0x80
    ensures s[i] in C.AsciiOf(s)
  {
    if i > 0 { AsciiHas(s[1..], i - 1); }
  }

  lemma {:induction false} AsciiCameFrom(s: seq<byte>, b: byte)
    requires b in C.AsciiOf(s)
    ensures b in s
  {
    if s != [] && !(s[0] == b) { AsciiCameFrom(s[1..], b); }
  }

  lemma {:induction false} MendedIsPrintable(j: Json)
    requires Printable(j)
    ensures Printable(Mended(j)) && Nesting(Mended(j)) == Nesting(j)
    decreases j, 0
  {
    hide Mend, NulFree, IsNumberText;
    match j
    case String(t) => MendIsNulFree(t);
    case Array(items) => MendedItemsArePrintable(items);
    case Object(ms) => MendedMembersArePrintable(ms);
    case _ =>
  }

  lemma {:induction false} MendedItemsArePrintable(items: Items)
    requires PrintableItems(items)
    ensures PrintableItems(MendedItems(items)) && ItemsNesting(MendedItems(items)) == ItemsNesting(items)
    decreases items, 0
  {
    if items.Item? {
      MendedIsPrintable(items.value);
      MendedItemsArePrintable(items.next);
    }
  }

  lemma {:induction false} MendedMembersArePrintable(ms: Members)
    requires PrintableMembers(ms)
    ensures PrintableMembers(MendedMembers(ms)) && MembersNesting(MendedMembers(ms)) == MembersNesting(ms)
    decreases ms, 0
  {
    hide Mend;
    if ms.Member? {
      MendIsNulFree(ms.key);
      MendedIsPrintable(ms.value);
      MendedMembersArePrintable(ms.next);
    }
  }

  /** Trees whose strings and keys are UTF-8 already. */
  predicate Utf8Tree(j: Json) {
    match j
    case String(t) => C.WellFormed(t)
    case Array(items) => Utf8Items(items)
    case Object(ms) => Utf8Members(ms)
    case _ => true
  }

  predicate Utf8Items(items: Items) {
    items.Item? ==> Utf8Tree(items.value) && Utf8Items(items.next)
  }

  predicate Utf8Members(ms: Members) {
    ms.Member? ==> C.WellFormed(ms.key) && Utf8Tree(ms.value) && Utf8Members(ms.next)
  }

  lemma {:induction false} Utf8TreeIsKept(j: Json)
    requires Utf8Tree(j)
    ensures Mended(j) == j
    decreases j, 0
  {
    hide C.Mend, C.WellFormed;
    match j
    case String(t) => C.MendKeepsText(t, REPLACEMENT_MARKER);
    case Array(items) => Utf8ItemsAreKept(items);
    case Object(ms) => Utf8MembersAreKept(ms);
    case _ =>
  }

  lemma {:induction false} Utf8ItemsAreKept(items: Items)
    requires Utf8Items(items)
    ensures MendedItems(items) == items
    decreases items, 0
  {
    if items.Item? {
      Utf8TreeIsKept(items.value);
      Utf8ItemsAreKept(items.next);
    }
  }

  lemma {:induction false} Utf8MembersAreKept(ms: Members)
    requires Utf8Members(ms)
    ensures MendedMembers(ms) == ms
    decreases ms, 0
  {
    hide C.Mend, C.WellFormed;
    if ms.Member? {
      C.MendKeepsText(ms.key, REPLACEMENT_MARKER);
      Utf8TreeIsKept(ms.value);
      Utf8MembersAreKept(ms.next);
    }
  }

  // ---------------------------------------------------------------------------------------------
  // The whole pipeline

  /** Text that ends in an ASCII octet is never cut off inside a character. */
  lemma AsciiEndIsNotTruncated(s: seq<byte>)
    requires s != [] && s[|s| - 1] < 0x80
    ensures !C.Truncated(s)
  {
  }

  lemma {:induction false} ItemsEndInAscii(st: Style, items: Items, d: nat)
    ensures var t := ItemsText(st, items, d); t != [] && t[|t| - 1] == RBRACKET
    ensures var t := ItemsRest(st, items, d); t != [] && t[|t| - 1] == RBRACKET
  {
    hide Text;
    if items.Item? { ItemsEndInAscii(st, items.next, d); }
  }

  lemma {:induction false} MembersEndInAscii(st: Style, ms: Members, d: nat)
    ensures var t := MembersText(st, ms, d); t != [] && t[|t| - 1] == RBRACE
    ensures var t := MembersRest(st, ms, d); t != [] && t[|t| - 1] == RBRACE
  {
    hide MemberText;
    if ms.Member? { MembersEndInAscii(st, ms.next, d); }
  }

  lemma TextEndsInAscii(st: Style, j: Json, d: nat)
    requires Printable(j)
    ensures var t := Text(st, j, d); t != [] && t[|t| - 1] < 0x80
  {
    hide Escape, StrtodLength, ItemsText, MembersText;
    match j
    case Array(items) => ItemsEndInAscii(st, items, d + 1);
    case Object(ms) => MembersEndInAscii(st, ms, d + 1);
    case _ =>
  }

  /** What `print_statistics` and the JNI callback make of a report. */
  function Delivered(j: Json): C.Result<seq<byte>> {
    C.ReplaceInvalid(Stripped(Text(FORMATTED, j, 0)), REPLACEMENT_MARKER)
  }

  /**
   * The repair never throws on a printed report, its output is well-formed UTF-8, and parsing that
   * output gives the original tree with its strings and keys repaired, exactly within the nesting
   * limit. A tree of UTF-8 strings arrives unchanged.
   */
  lemma ReportSurvives(j: Json)
    requires Printable(j)
    ensures Delivered(j) == C.Done(Text(STRIPPED, Mended(j), 0))
    ensures C.WellFormed(Text(STRIPPED, Mended(j), 0))
    ensures Parse(Text(STRIPPED, Mended(j), 0)) == if Nesting(j) <= NESTING_LIMIT then Some(Mended(j)) else None
    ensures Utf8Tree(j) ==> Mended(j) == j
  {
    hide Text, Stripped, C.WellFormed, C.Mend, C.ReplaceInvalid, C.Truncated, Printable, ParseWithOpts;
    hide Utf8Tree, Mended;
    var text := Text(STRIPPED, j, 0);
    StrippedText(j, 0);
    TextEndsInAscii(STRIPPED, j, 0);
    AsciiEndIsNotTruncated(text);
    C.ReplaceInvalidExactly(text, REPLACEMENT_MARKER);
    C.MendedIsText(text, REPLACEMENT_MARKER);
    MendText(STRIPPED, j, 0, []);
    MendNothing();
    assert text + [] == text && Text(STRIPPED, Mended(j), 0) + [] == Text(STRIPPED, Mended(j), 0);
    MendedIsPrintable(j);
    PrintParseRoundTrip(STRIPPED, Mended(j), false);
    if Utf8Tree(j) { Utf8TreeIsKept(j); }
  }
}
