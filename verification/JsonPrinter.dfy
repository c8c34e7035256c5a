/** The printer over a growable or a fixed buffer, and the text it leaves there. */
module JsonPrinter {
  import opened Bytes
  import opened JsonTree
  import opened JsonRoundTrip

  const LLONG_MAX: nat := 0x7fff_ffff_ffff_ffff

  function StyleOf(format: bool): Style { if format then FORMATTED else UNFORMATTED }

  /**
   * Spare bytes the last writer of a value asks for beyond its text: every writer reserves one byte
   * too many for its NUL, except `print_number`, which reserves exactly that.
   */
  function Slack(j: Json): nat { if j.Number? then 1 else 2 }

  class PrintBuffer {
    var buffer: array<byte>
    var length: nat
    var offset: nat
    var depth: nat
    const noalloc: bool
    const format: bool

    constructor (buffer: array<byte>, length: nat, noalloc: bool, format: bool)
      requires length <= buffer.Length && length <= LLONG_MAX
      ensures this.buffer == buffer && this.length == length && this.noalloc == noalloc && this.format == format
      ensures Has([]) && depth == 0
    {
      this.buffer := buffer;
      this.length := length;
      this.offset := 0;
      this.depth := 0;
      this.noalloc := noalloc;
      this.format := format;
    }

    ghost predicate Valid()
      reads this
    {
      && length <= buffer.Length && length <= LLONG_MAX
      && (length > 0 ==> offset < length)
      && (length == 0 ==> offset == 0)
    }

    /** The buffer holds `p`, and printing continues right after it. */
    ghost predicate Has(p: seq<byte>)
      reads this, buffer
    {
      Valid() && offset == |p| && buffer[..offset] == p
    }

    /** The buffer holds `p` as a C string; the offset may still be inside it. */
    ghost predicate Ends(p: seq<byte>)
      reads this, buffer
    {
      Valid() && offset <= |p| < length && buffer[..|p|] == p && buffer[|p|] == 0
    }

    /** How far the buffer can reach at all. */
    ghost function Limit(): nat
      reads this
    {
      if noalloc then length else LLONG_MAX
    }

    /** `ensure`: room for `needed` bytes and one more, growing the buffer when that is allowed. */
    method Ensure(needed: nat, ghost p: seq<byte>) returns (ok: bool)
      requires Has(p)
      modifies this`buffer, this`length
      ensures Has(p) && Limit() == old(Limit()) && (buffer == old(buffer) || (!noalloc && fresh(buffer)))
      ensures ok <==> |p| + needed + 1 <= Limit()
      ensures ok ==> |p| + needed + 1 <= length
    {
      if length > 0 && offset >= length {
        assert false;
      }
      if needed > LLONG_MAX {
        return false;
      }
      var total := needed + offset + 1;
      if total <= length {
        return true;
      }
      if noalloc {
        return false;
      }
      var newSize;
      if total > LLONG_MAX / 2 {
        if total > LLONG_MAX {
          return false;
        }
        newSize := LLONG_MAX;
      } else {
        newSize := total * 2;
      }
      var grown := new byte[newSize];
      forall i | 0 <= i < offset { grown[i] := buffer[i]; }
      assert grown[..offset] == buffer[..offset];
      length := newSize;
      buffer := grown;
      ok := true;
    }

    /** A writer: reserve, then store `bytes` at the offset without moving it. */
    method Write(needed: nat, bytes: seq<byte>, ghost p: seq<byte>) returns (ok: bool)
      requires Has(p) && |bytes| <= needed + 1
      modifies this`buffer, this`length, buffer
      ensures Has(p) && Limit() == old(Limit()) && (buffer == old(buffer) || (!noalloc && fresh(buffer)))
      ensures ok <==> |p| + needed + 1 <= Limit()
      ensures ok ==> |p| + needed + 1 <= length && buffer[..|p| + |bytes|] == p + bytes
    {
      ok := Ensure(needed, p);
      if ok {
        Store(buffer, offset, bytes);
        assert buffer[..|p| + |bytes|] == buffer[..offset] + buffer[offset..offset + |bytes|];
      }
    }

    /** `print_string_ptr` */
    method PrintString(t: seq<byte>, ghost p: seq<byte>) returns (ok: bool)
      requires Has(p)
      modifies this`buffer, this`length, buffer
      ensures Limit() == old(Limit()) && (buffer == old(buffer) || (!noalloc && fresh(buffer)))
      ensures ok <==> |p| + |Quoted(t)| + 2 <= Limit()
      ensures ok ==> Ends(p + Quoted(t)) && offset == |p|
    {
      var extra := CountEscapes(t);
      assert |Quoted(t)| == |t| + extra + 2;
      hide Quoted, Escape;
      var outputLength := |t| + extra;
      ok := Ensure(outputLength + 3, p);
      if !ok {
        return;
      }
      QuoteInto(buffer, offset, t, extra);
      assert buffer[..|p| + |Quoted(t)|] == buffer[..offset] + buffer[offset..offset + |Quoted(t)|];
    }

    /** `update_offset`: move to the terminator. */
    method UpdateOffset(ghost p: seq<byte>)
      requires Ends(p) && NulFree(p[offset..])
      modifies this`offset
      ensures Has(p)
    {
      var n := 0;
      while buffer[offset + n] != 0
        invariant offset + n <= |p|
        invariant offset == old(offset)
        decreases |p| - n
      {
        assert offset + n < |p| ==> p[offset + n] == p[offset..][n];
        n := n + 1;
      }
      offset := offset + n;
    }

    /** A keyword with its terminator; the offset stays in front of it. */
    method PrintWord(word: seq<byte>, ghost p: seq<byte>) returns (ok: bool)
      requires Has(p)
      modifies this`buffer, this`length, buffer
      ensures Limit() == old(Limit()) && (buffer == old(buffer) || (!noalloc && fresh(buffer)))
      ensures ok <==> |p| + |word| + 2 <= Limit()
      ensures ok ==> Ends(p + word) && offset == |p|
    {
      ok := Write(|word| + 1, word + [0], p);
      if ok { TerminatedText(buffer[..], p, word); }
    }

    method PrintNumber(l: seq<byte>, ghost p: seq<byte>) returns (ok: bool)
      requires Has(p)
      modifies this`buffer, this`length, this`offset, buffer
      ensures Limit() == old(Limit()) && (buffer == old(buffer) || (!noalloc && fresh(buffer)))
      ensures ok <==> |l| < NUMBER_BUFFER && |p| + |l| + 1 <= Limit()
      ensures ok ==> Ends(p + l) && offset >= |p|
    {
      if |l| > NUMBER_BUFFER - 1 {
        return false;
      }
      ok := Write(|l|, l + [0], p);
      if ok {
        TerminatedText(buffer[..], p, l);
        offset := offset + |l|;
      }
    }

    /** Bytes that are final: the offset moves past them. A writer may store a NUL behind them. */
    method PrintMark(mark: seq<byte>, needed: nat, tail: seq<byte>, ghost p: seq<byte>) returns (ok: bool)
      requires Has(p) && |mark| + |tail| <= needed + 1 && |mark| <= needed
      modifies this`buffer, this`length, this`offset, buffer
      ensures Limit() == old(Limit()) && (buffer == old(buffer) || (!noalloc && fresh(buffer)))
      ensures ok <==> |p| + needed + 1 <= Limit()
      ensures ok ==> Has(p + mark)
    {
      ok := Write(needed, mark + tail, p);
      if ok {
        Assoc(p, mark, tail);
        assert buffer[..|p| + |mark|] == buffer[..|p| + |mark + tail|][..|p| + |mark|];
        offset := offset + |mark|;
      }
    }

    /** `print_value` */
    method PrintValue(j: Json, ghost p: seq<byte>) returns (ok: bool)
      requires Has(p) && Printable(j) && ShortNumbers(j)
      modifies this`buffer, this`length, this`offset, this`depth, buffer
      ensures Limit() == old(Limit()) && (buffer == old(buffer) || (!noalloc && fresh(buffer)))
      ensures ok <==> |p| + |Text(StyleOf(format), j, old(depth))| + Slack(j) <= Limit()
      ensures ok ==> Ends(p + Text(StyleOf(format), j, old(depth))) && offset >= |p| && depth == old(depth)
      decreases j, 0
    {
      hide Quoted, IsNumberText;
      match j {
        case Null => ok := PrintWord(NULL_TEXT, p);
        case False => ok := PrintWord(FALSE_TEXT, p);
        case True => ok := PrintWord(TRUE_TEXT, p);
        case Number(l) => ok := PrintNumber(l, p);
        case String(t) => ok := PrintString(t, p);
        case Array(items) => ok := PrintArray(items, p);
        case Object(members) => ok := PrintObject(members, p);
      }
    }

    /** One round of the loop in `print_array`. */
    method PrintItem(v: Json, more: bool, ghost p: seq<byte>) returns (ok: bool)
      requires Has(p) && Printable(v) && ShortNumbers(v)
      modifies this`buffer, this`length, this`offset, this`depth, buffer
      ensures Limit() == old(Limit()) && (buffer == old(buffer) || (!noalloc && fresh(buffer)))
      ensures ok <==> |p| + |Text(StyleOf(format), v, old(depth))|
                      + (if more then |ItemSeparator(format)| + 2 else Slack(v)) <= Limit()
      ensures ok ==> Has(p + Text(StyleOf(format), v, old(depth)) + (if more then ItemSeparator(format) else []))
      ensures ok ==> depth == old(depth)
      decreases v, 1
    {
      hide Text, Printable, ShortNumbers;
      ghost var t := Text(StyleOf(format), v, depth);
      ok := PrintValue(v, p);
      if !ok {
        return;
      }
      PrintedIsNulFree(format, v, depth);
      assert NulFree((p + t)[offset..]);
      UpdateOffset(p + t);
      if more {
        ok := PrintMark(ItemSeparator(format), |ItemSeparator(format)| + 1, [0], p + t);
      } else {
        assert p + t + [] == p + t;
      }
    }

    method PrintArray(items: Items, ghost p: seq<byte>) returns (ok: bool)
      requires Has(p) && PrintableItems(items) && ShortItems(items)
      modifies this`buffer, this`length, this`offset, this`depth, buffer
      ensures Limit() == old(Limit()) && (buffer == old(buffer) || (!noalloc && fresh(buffer)))
      ensures ok <==> |p| + |Text(StyleOf(format), Array(items), old(depth))| + 2 <= Limit()
      ensures ok ==> Ends(p + Text(StyleOf(format), Array(items), old(depth))) && offset >= |p| && depth == old(depth)
      decreases items, 2
    {
      hide Text, ItemsText;
      ArrayTextSplits(format, items, depth, p);
      ok := PrintMark([LBRACKET], 1, [], p);
      if !ok {
        return;
      }
      depth := depth + 1;
      ok := PrintItems(items, p + [LBRACKET]);
      if ok {
        depth := depth - 1;
      }
    }

    /** The loop of `print_array` and the closing bracket. */
    method PrintItems(items: Items, ghost p: seq<byte>) returns (ok: bool)
      requires Has(p) && PrintableItems(items) && ShortItems(items)
      modifies this`buffer, this`length, this`offset, this`depth, buffer
      ensures Limit() == old(Limit()) && (buffer == old(buffer) || (!noalloc && fresh(buffer)))
      ensures ok <==> |p| + |ItemsText(StyleOf(format), items, old(depth))| + 2 <= Limit()
      ensures ok ==> Ends(p + ItemsText(StyleOf(format), items, old(depth))) && offset >= |p| && depth == old(depth)
      decreases items, 1
    {
      hide Text, ItemsText;
      var cur := items;
      ghost var st, d, q := StyleOf(format), depth, p;
      ghost var whole := p + ItemsText(st, items, d);
      while cur.Item?
        invariant Has(q) && |p| <= |q| && q + ItemsText(st, cur, d) == whole
        invariant PrintableItems(cur) && ShortItems(cur) && depth == d && (cur == items || cur < items)
        invariant Limit() == old(Limit()) && (buffer == old(buffer) || (!noalloc && fresh(buffer)))
        decreases cur
      {
        ItemsTextSplits(format, cur, d, q);
        ok := PrintItem(cur.value, cur.next.Item?, q);
        if !ok {
          return;
        }
        q := q + Text(st, cur.value, d) + (if cur.next.Item? then ItemSeparator(format) else []);
        cur := cur.next;
      }
      NoItemsText(st, d);
      ok := PrintWord([RBRACKET], q);
    }

    method PrintObject(members: Members, ghost p: seq<byte>) returns (ok: bool)
      requires Has(p) && PrintableMembers(members) && ShortMembers(members)
      modifies this`buffer, this`length, this`offset, this`depth, buffer
      ensures Limit() == old(Limit()) && (buffer == old(buffer) || (!noalloc && fresh(buffer)))
      ensures ok <==> |p| + |Text(StyleOf(format), Object(members), old(depth))| + 2 <= Limit()
      ensures ok ==> Ends(p + Text(StyleOf(format), Object(members), old(depth)))
      ensures ok ==> offset >= |p| && depth == old(depth)
      decreases members, 3
    {
      hide Text, MembersText;
      var open := if format then [LBRACE, NEWLINE] else [LBRACE];
      ObjectTextSplits(format, members, depth, p);
      ok := PrintMark(open, |open| + 1, [], p);
      if !ok {
        return;
      }
      depth := depth + 1;
      ok := PrintMembers(members, p + open);
      if ok {
        depth := depth - 1;
      }
    }

    /** The loop of `print_object` and the closing brace. */
    method PrintMembers(members: Members, ghost p: seq<byte>) returns (ok: bool)
      requires Has(p) && PrintableMembers(members) && ShortMembers(members) && depth > 0
      modifies this`buffer, this`length, this`offset, this`depth, buffer
      ensures Limit() == old(Limit()) && (buffer == old(buffer) || (!noalloc && fresh(buffer)))
      ensures ok <==> |p| + |MembersText(StyleOf(format), members, old(depth))| + 2 <= Limit()
      ensures ok ==> Ends(p + MembersText(StyleOf(format), members, old(depth))) && offset >= |p| && depth == old(depth)
      decreases members, 2
    {
      hide MemberText, MembersText;
      var cur := members;
      ghost var st, d, q := StyleOf(format), depth, p;
      ghost var whole := p + MembersText(st, members, d);
      while cur.Member?
        invariant Has(q) && |p| <= |q| && q + MembersText(st, cur, d) == whole
        invariant PrintableMembers(cur) && ShortMembers(cur) && depth == d && (cur == members || cur < members)
        invariant Limit() == old(Limit()) && (buffer == old(buffer) || (!noalloc && fresh(buffer)))
        decreases cur
      {
        MembersTextSplits(format, cur, d, q);
        ok := PrintMember(cur.key, cur.value, cur.next.Member?, q);
        if !ok {
          return;
        }
        q := q + MemberText(st, cur.key, cur.value, d) + MemberSeparator(format, cur.next.Member?);
        cur := cur.next;
      }
      NoMembersText(st, d);
      ok := PrintClosing(q);
    }

    /** Indentation one level up, the brace and the terminator. */
    method PrintClosing(ghost p: seq<byte>) returns (ok: bool)
      requires Has(p) && depth > 0
      modifies this`buffer, this`length, buffer
      ensures Limit() == old(Limit()) && (buffer == old(buffer) || (!noalloc && fresh(buffer)))
      ensures ok <==> |p| + |Closing(StyleOf(format), depth)| + 2 <= Limit()
      ensures ok ==> Ends(p + Closing(StyleOf(format), depth)) && offset == |p|
    {
      TabCount(format, depth - 1);
      var closing := (if format then seq(depth - 1, _ => TAB) else []) + [RBRACE];
      assert closing == Closing(StyleOf(format), depth);
      hide Closing;
      ok := Write(if format then depth + 1 else 2, closing + [0], p);
      if ok { TerminatedText(buffer[..], p, closing); }
    }

    /** One round of the loop in `print_object`: indentation, key, colon, value, separator. */
    method PrintMember(k: seq<byte>, v: Json, more: bool, ghost p: seq<byte>) returns (ok: bool)
      requires Has(p) && NulFree(k) && Printable(v) && ShortNumbers(v)
      modifies this`buffer, this`length, this`offset, this`depth, buffer
      ensures Limit() == old(Limit()) && (buffer == old(buffer) || (!noalloc && fresh(buffer)))
      ensures ok <==>
        |p| + |MemberText(StyleOf(format), k, v, old(depth))| + |MemberSeparator(format, more)| + 2 <= Limit()
      ensures ok ==> Has(p + MemberText(StyleOf(format), k, v, old(depth)) + MemberSeparator(format, more))
      ensures ok ==> depth == old(depth)
      decreases v, 2
    {
      hide Text, Quoted, Printable, ShortNumbers;
      ghost var st, d := StyleOf(format), depth;
      ghost var head := Tabs(st, d) + (Quoted(k) + ([COLON] + st.tab));
      MemberTextSplits(st, k, v, d, p);
      hide MemberText, Tabs;
      ok := PrintKey(k, p);
      if !ok {
        return;
      }
      ghost var q := p + head;
      ghost var t := Text(st, v, d);
      ok := PrintValue(v, q);
      if !ok {
        return;
      }
      PrintedIsNulFree(format, v, d);
      assert NulFree((q + t)[offset..]);
      UpdateOffset(q + t);
      ok := PrintMark(MemberSeparator(format, more), |MemberSeparator(format, more)| + 1, [0], q + t);
    }

    method PrintKey(k: seq<byte>, ghost p: seq<byte>) returns (ok: bool)
      requires Has(p) && NulFree(k)
      modifies this`buffer, this`length, this`offset, buffer
      ensures Limit() == old(Limit()) && (buffer == old(buffer) || (!noalloc && fresh(buffer)))
      ensures ok ==> Has(p + (Tabs(StyleOf(format), depth) + (Quoted(k) + ([COLON] + StyleOf(format).tab))))
      ensures !ok ==> |p| + |Tabs(StyleOf(format), depth)| + |Quoted(k)| + |StyleOf(format).tab| + 2 > Limit()
    {
      hide Quoted;
      ghost var st := StyleOf(format);
      ghost var q := p;
      TabCount(format, depth);
      if format {
        var tabs := seq(depth, _ => TAB);
        ok := PrintMark(tabs, depth, [], p);
        if !ok {
          return;
        }
        q := p + tabs;
      }
      assert q == p + Tabs(st, depth);
      hide Tabs;
      ok := PrintKeyAndColon(k, q);
      Assoc(p, Tabs(st, depth), Quoted(k) + ([COLON] + st.tab));
    }

    method PrintKeyAndColon(k: seq<byte>, ghost q: seq<byte>) returns (ok: bool)
      requires Has(q) && NulFree(k)
      modifies this`buffer, this`length, this`offset, buffer
      ensures Limit() == old(Limit()) && (buffer == old(buffer) || (!noalloc && fresh(buffer)))
      ensures ok ==> Has(q + (Quoted(k) + ([COLON] + StyleOf(format).tab)))
      ensures !ok ==> |q| + |Quoted(k)| + |StyleOf(format).tab| + 2 > Limit()
    {
      hide Quoted;
      ok := PrintString(k, q);
      if !ok {
        return;
      }
      QuotedIsNulFree(k);
      assert NulFree((q + Quoted(k))[offset..]);
      UpdateOffset(q + Quoted(k));
      var colon := if format then [COLON, TAB] else [COLON];
      assert colon == [COLON] + StyleOf(format).tab;
      ok := PrintMark(colon, |colon|, [], q + Quoted(k));
      Assoc(q, Quoted(k), colon);
    }
  }

  function ItemSeparator(format: bool): seq<byte> { if format then [COMMA, SPACE] else [COMMA] }

  lemma ArrayTextSplits(format: bool, items: Items, d: nat, p: seq<byte>)
    ensures var st := StyleOf(format);
      && p + Text(st, Array(items), d) == p + [LBRACKET] + ItemsText(st, items, d + 1)
      && |Text(st, Array(items), d)| == 1 + |ItemsText(st, items, d + 1)| >= 2
  {
    var st := StyleOf(format);
    ItemsTextNonempty(st, items, d + 1);
    hide ItemsText;
    Assoc(p, [LBRACKET], ItemsText(st, items, d + 1));
  }

  lemma ObjectTextSplits(format: bool, ms: Members, d: nat, p: seq<byte>)
    ensures var st, open := StyleOf(format), if format then [LBRACE, NEWLINE] else [LBRACE];
      && p + Text(st, Object(ms), d) == p + open + MembersText(st, ms, d + 1)
      && |Text(st, Object(ms), d)| == |open| + |MembersText(st, ms, d + 1)| >= |open| + 1
  {
    var st, open := StyleOf(format), if format then [LBRACE, NEWLINE] else [LBRACE];
    MembersTextNonempty(st, ms, d + 1);
    hide MembersText;
    assert open == [LBRACE] + st.newline;
    Assoc([LBRACE], st.newline, MembersText(st, ms, d + 1));
    Assoc(p, open, MembersText(st, ms, d + 1));
  }

  lemma NoItemsText(st: Style, d: nat)
    ensures ItemsText(st, NoItem, d) == [RBRACKET]
  {
  }

  lemma ItemsTextNonempty(st: Style, items: Items, d: nat)
    ensures |ItemsText(st, items, d)| >= 1 && |ItemsRest(st, items, d)| >= 1
  {
    hide Text;
  }

  lemma ItemsTextSplits(format: bool, items: Items, d: nat, q: seq<byte>)
    requires items.Item?
    ensures var st := StyleOf(format);
      var done := q + Text(st, items.value, d) + (if items.next.Item? then ItemSeparator(format) else []);
      q + ItemsText(st, items, d) == done + ItemsText(st, items.next, d) && |ItemsText(st, items.next, d)| >= 1
  {
    hide Text;
    var st := StyleOf(format);
    var t, rest := Text(st, items.value, d), ItemsText(st, items.next, d);
    ItemsTextNonempty(st, items.next, d);
    Assoc(q, t, ItemsRest(st, items.next, d));
    if items.next.Item? {
      assert ItemSeparator(format) == [COMMA] + st.space;
      Assoc([COMMA], st.space, rest);
      Assoc(q + t, ItemSeparator(format), rest);
    } else {
      assert q + t + [] == q + t;
    }
  }

  function MemberSeparator(format: bool, more: bool): seq<byte> {
    (if more then [COMMA] else []) + (if format then [NEWLINE] else [])
  }

  lemma {:induction false} TabCount(format: bool, n: nat)
    ensures Tabs(StyleOf(format), n) == if format then seq(n, _ => TAB) else []
  {
    if n > 0 { TabCount(format, n - 1); }
  }

  lemma NoMembersText(st: Style, d: nat)
    ensures MembersText(st, NoMember, d) == Closing(st, d)
  {
  }

  lemma MembersTextNonempty(st: Style, ms: Members, d: nat)
    ensures |MembersText(st, ms, d)| >= 1
  {
    hide Text, MembersRest;
  }

  lemma MembersTextSplits(format: bool, ms: Members, d: nat, q: seq<byte>)
    requires ms.Member?
    ensures var st := StyleOf(format);
      var done := q + MemberText(st, ms.key, ms.value, d) + MemberSeparator(format, ms.next.Member?);
      q + MembersText(st, ms, d) == done + MembersText(st, ms.next, d) && |MembersText(st, ms.next, d)| >= 1
  {
    var st := StyleOf(format);
    var t, rest, sep :=
      MemberText(st, ms.key, ms.value, d), MembersText(st, ms.next, d), MemberSeparator(format, ms.next.Member?);
    MembersTextNonempty(st, ms.next, d);
    assert MembersRest(st, ms.next, d) == sep + rest by {
      hide MemberText;
      if ms.next.Member? { Assoc([COMMA], st.newline, rest); }
    }
    hide MemberText, MembersRest;
    Assoc(q, t, sep + rest);
    Assoc(q + t, sep, rest);
  }

  lemma MemberTextSplits(st: Style, k: seq<byte>, v: Json, d: nat, q: seq<byte>)
    ensures var head := Tabs(st, d) + (Quoted(k) + ([COLON] + st.tab));
      && MemberText(st, k, v, d) == head + Text(st, v, d)
      && q + MemberText(st, k, v, d) == q + head + Text(st, v, d)
  {
    hide Tabs, Quoted, Text;
    var t := Text(st, v, d);
    Assoc([COLON], st.tab, t);
    Assoc(Quoted(k), [COLON] + st.tab, t);
    Assoc(Tabs(st, d), Quoted(k) + ([COLON] + st.tab), t);
    Assoc(q, Tabs(st, d) + (Quoted(k) + ([COLON] + st.tab)), t);
  }

  lemma PrintedIsNulFree(format: bool, j: Json, d: nat)
    requires Printable(j)
    ensures NulFree(Text(StyleOf(format), j, d))
  {
    hide Text;
    TextIsNulFree(StyleOf(format), j, d);
  }

  lemma TerminatedText(a: seq<byte>, p: seq<byte>, word: seq<byte>)
    requires |p| + |word| + 1 <= |a| && a[..|p| + |word + [0]|] == p + (word + [0])
    ensures a[..|p| + |word|] == p + word && a[|p| + |word|] == 0
  {
    Assoc(p, word, [0]);
    assert a[..|p| + |word|] == a[..|p| + |word| + 1][..|p| + |word|];
    assert a[|p| + |word|] == a[..|p| + |word| + 1][|p| + |word|];
  }

  lemma EscapeStep(t: seq<byte>, i: nat)
    requires i < |t|
    ensures Escape(t[i..]) == EscapeByte(t[i]) + Escape(t[i + 1..])
  {
    hide EscapeByte;
    assert t[i..][1..] == t[i + 1..];
  }

  /** First loop of `print_string_ptr`: the additional characters that escaping needs. */
  method CountEscapes(t: seq<byte>) returns (n: nat)
    ensures |t| + n == |Escape(t)|
  {
    hide Escape;
    n := 0;
    assert t[0..] == t;
    for i := 0 to |t|
      invariant n + |Escape(t[i..])| + i == |Escape(t)|
    {
      EscapeStep(t, i);
      if t[i] == QUOTE || t[i] == BACKSLASH || t[i] == 8 || t[i] == 12 || t[i] == NEWLINE || t[i] == 13 || t[i] == TAB {
        n := n + 1;
      } else if t[i] < 32 {
        n := n + 5;
      }
    }
    assert t[|t|..] == [];
    EscapeNothing();
  }

  lemma EscapeNothing()
    ensures Escape([]) == []
  {
  }

  /** Second loop of `print_string_ptr`; a `\u` escape is printed together with a NUL after it. */
  method EscapeInto(a: array<byte>, at: nat, t: seq<byte>)
    requires at + |Escape(t)| < a.Length
    modifies a
    ensures a[..at] == old(a[..at]) && a[at..at + |Escape(t)|] == Escape(t)
  {
    hide Escape, EscapeByte;
    var pos := at;
    assert t[0..] == t;
    assert a[at..pos] + Escape(t) == Escape(t);
    for i := 0 to |t|
      invariant at <= pos && pos + |Escape(t[i..])| == at + |Escape(t)|
      invariant a[..at] == old(a[..at])
      invariant a[at..pos] + Escape(t[i..]) == Escape(t)
    {
      EscapeStep(t, i);
      Assoc(a[at..pos], EscapeByte(t[i]), Escape(t[i + 1..]));
      EscapeOne(a, at, pos, t[i]);
      pos := pos + |EscapeByte(t[i])|;
    }
    assert t[|t|..] == [];
    EscapeNothing();
    assert a[at..pos] + [] == a[at..pos];
  }

  method EscapeOne(a: array<byte>, at: nat, pos: nat, b: byte)
    requires at <= pos && pos + |EscapeByte(b)| < a.Length
    modifies a
    ensures a[..at] == old(a[..at]) && a[at..pos + |EscapeByte(b)|] == old(a[at..pos]) + EscapeByte(b)
  {
    hide EscapeByte;
    var e := EscapeByte(b);
    var bytes := if |e| == 6 then e + [0] else e;
    Store(a, pos, bytes);
    assert e == bytes[..|e|] == a[pos..pos + |bytes|][..|e|];
    assert a[..at] == a[..pos][..at] && a[at..pos] == a[..pos][at..];
    StoredNext(a[..], at, pos, e);
  }

  /** The literal with its quotes and its terminator. */
  method QuoteInto(a: array<byte>, at: nat, t: seq<byte>, extra: nat)
    requires |t| + extra == |Escape(t)| && at + extra + |t| + 2 < a.Length
    modifies a
    ensures at + |Quoted(t)| == at + |t| + extra + 2
    ensures a[..at] == old(a[..at]) && a[at..at + |Quoted(t)|] == Quoted(t) && a[at + |Quoted(t)|] == 0
  {
    hide Escape;
    var end := at + 1 + |t| + extra;
    Store(a, at, [QUOTE]);
    ghost var quoted := a[..];
    WriteBody(a, at + 1, t, extra);
    ghost var body := a[..];
    Store(a, end, [QUOTE, 0]);
    QuotedInPlace(quoted, body, a[..], at, end, t);
    assert old(a[..at]) == quoted[..at];
  }

  /** Without escapes the characters are copied, otherwise they are escaped one by one. */
  method WriteBody(a: array<byte>, at: nat, t: seq<byte>, extra: nat)
    requires |t| + extra == |Escape(t)| && at + |Escape(t)| < a.Length
    modifies a
    ensures a[..at] == old(a[..at]) && a[at..at + |Escape(t)|] == Escape(t)
  {
    if extra == 0 {
      PlainIsItself(t);
      Store(a, at, t);
    } else {
      EscapeInto(a, at, t);
    }
    hide Escape;
  }

  lemma QuotedInPlace(quoted: seq<byte>, body: seq<byte>, a: seq<byte>, at: nat, end: nat, t: seq<byte>)
    requires |quoted| == |body| == |a| && end == at + 1 + |Escape(t)| && end + 2 <= |a|
    requires quoted[at..at + 1] == [QUOTE]
    requires body[..at + 1] == quoted[..at + 1] && body[at + 1..end] == Escape(t)
    requires a[..end] == body[..end] && a[end..end + 2] == [QUOTE, 0]
    ensures end + 1 == at + |Quoted(t)|
    ensures a[..at] == quoted[..at] && a[at..end + 1] == Quoted(t) && a[end + 1] == 0
  {
    hide Escape;
    assert a[end] == a[end..end + 2][0] && a[end + 1] == a[end..end + 2][1];
    assert a[..at] == a[..end][..at] && body[..at] == body[..at + 1][..at];
    assert a[at] == a[..end][at] == body[..at + 1][at] == quoted[at..at + 1][0];
    assert a[at + 1..end] == a[..end][at + 1..] == Escape(t);
    assert a[at..end + 1] == [a[at]] + (a[at + 1..end] + [a[end]]);
  }

  lemma {:induction false} PlainIsItself(t: seq<byte>)
    requires |Escape(t)| == |t|
    ensures Escape(t) == t
  {
    if t != [] {
      EscapeNotShorter(t[1..]);
      PlainIsItself(t[1..]);
    }
  }

  lemma {:induction false} EscapeNotShorter(t: seq<byte>)
    ensures |Escape(t)| >= |t|
  {
    if t != [] { EscapeNotShorter(t[1..]); }
  }

  lemma StoredNext(a: seq<byte>, at: nat, pos: nat, e: seq<byte>)
    requires at <= pos && pos + |e| <= |a|
    requires a[pos..pos + |e|] == e
    ensures a[at..pos + |e|] == a[at..pos] + e
  {
  }

  /** Byte copy into an array. */
  method Store(a: array<byte>, at: nat, bytes: seq<byte>)
    requires at + |bytes| <= a.Length
    modifies a
    ensures a[..at] == old(a[..at]) && a[at..at + |bytes|] == bytes
    ensures a[at + |bytes|..] == old(a[at + |bytes|..])
  {
    for i := 0 to |bytes|
      invariant a[..at] == old(a[..at]) && a[at..at + i] == bytes[..i]
      invariant a[at + |bytes|..] == old(a[at + |bytes|..])
    {
      a[at + i] := bytes[i];
    }
  }

  /** An array holds a C string. */
  ghost predicate HoldsString(a: array<byte>, text: seq<byte>)
    reads a
  {
    |text| < a.Length && a[..|text|] == text && a[|text|] == 0
  }

  /**
   * `cJSON_PrintPreallocated`: on success the caller's buffer holds the text and its NUL. It succeeds
   * exactly when the buffer has two bytes to spare, or one if the tree is a single number.
   */
  method PrintPreallocated(j: Json, a: array<byte>, len: int, format: bool) returns (ok: bool)
    requires Printable(j) && ShortNumbers(j) && len <= a.Length && len <= LLONG_MAX
    modifies a
    ensures ok <==> len >= |Text(StyleOf(format), j, 0)| + Slack(j)
    ensures ok ==> HoldsString(a, Text(StyleOf(format), j, 0))
  {
    hide Text, Printable, ShortNumbers;
    if len < 0 {
      return false;
    }
    var p := new PrintBuffer(a, len, true, format);
    ok := p.PrintValue(j, []);
    if ok {
      assert [] + Text(StyleOf(format), j, 0) == Text(StyleOf(format), j, 0);
    }
  }

  /** `cJSON_Print` and `cJSON_PrintUnformatted`: a buffer that starts out unaccounted for and grows on demand. */
  method Print(j: Json, format: bool) returns (text: Option<seq<byte>>)
    requires Printable(j) && ShortNumbers(j)
    ensures text == if |Text(StyleOf(format), j, 0)| + Slack(j) <= LLONG_MAX
                    then Some(Text(StyleOf(format), j, 0)) else None
  {
    hide Text, Printable, ShortNumbers;
    ghost var t := Text(StyleOf(format), j, 0);
    var buffer := new byte[256];
    var p := new PrintBuffer(buffer, 0, false, format);
    var ok := p.PrintValue(j, []);
    if !ok {
      return None;
    }
    assert [] + t == t;
    PrintedIsNulFree(format, j, 0);
    p.UpdateOffset(t);
    return Some(p.buffer[..p.offset]);
  }

  /** `cJSON_PrintBuffered`: the same from a buffer of the caller's guess. */
  method PrintBuffered(j: Json, prebuffer: int, format: bool) returns (a: array?<byte>)
    requires Printable(j) && ShortNumbers(j) && prebuffer <= LLONG_MAX
    ensures a != null <==> prebuffer >= 0 && |Text(StyleOf(format), j, 0)| + Slack(j) <= LLONG_MAX
    ensures a != null ==> HoldsString(a, Text(StyleOf(format), j, 0))
  {
    hide Text, Printable, ShortNumbers;
    if prebuffer < 0 {
      return null;
    }
    ghost var t := Text(StyleOf(format), j, 0);
    var buffer := new byte[prebuffer];
    var p := new PrintBuffer(buffer, prebuffer, false, format);
    var ok := p.PrintValue(j, []);
    if !ok {
      return null;
    }
    assert [] + t == t;
    return p.buffer;
  }
}
