/** Whatever the parser accepts is a tree that prints and parses back to itself. */
module JsonReparse {
  import opened Bytes
  import opened JsonTree
  import opened JsonParse
  import opened JsonRoundTrip

  // ---------------------------------------------------------------------------------------------
  // strtod takes the same number from the prefix it consumed.

  lemma {:induction false} DigitsOfPrefix(s: seq<byte>, k: nat)
    requires k <= |s|
    ensures Digits(s[..k]) == if Digits(s) < k then Digits(s) else k
  {
    if k > 0 && IsDigit(s[0]) {
      DigitsOfPrefix(s[1..], k - 1);
      assert s[..k][1..] == s[1..][..k - 1];
    }
  }

  lemma ExponentOfPrefix(s: seq<byte>)
    ensures ExponentLength(s[..ExponentLength(s)]) == ExponentLength(s)
  {
    var n := ExponentLength(s);
    if n > 0 {
      var e := s[..n];
      var sign := SignLength(s[1..]);
      assert SignLength(e[1..]) == sign;
      DigitsOfPrefix(s[1 + sign..], n - 1 - sign);
      assert e[1 + sign..] == s[1 + sign..][..n - 1 - sign];
    }
  }

  /** The parts of a number: sign and whole digits, then the fraction with its point. */
  function WholeEnd(s: seq<byte>): (p: nat)
    ensures p <= |s|
  {
    SignLength(s) + Digits(s[SignLength(s)..])
  }

  function FractionEnd(s: seq<byte>): (p: nat)
    ensures WholeEnd(s) <= p <= |s|
  {
    var p := WholeEnd(s);
    if p < |s| && s[p] == DOT then p + 1 + Digits(s[p + 1..]) else p
  }

  lemma WholeOfPrefix(s: seq<byte>, n: nat)
    requires 0 < n <= |s| && WholeEnd(s) <= n
    ensures WholeEnd(s[..n]) == WholeEnd(s) && SignLength(s[..n]) == SignLength(s)
  {
    var sign := SignLength(s);
    DigitsOfPrefix(s[sign..], n - sign);
    assert s[..n][sign..] == s[sign..][..n - sign];
  }

  lemma FractionOfPrefix(s: seq<byte>, n: nat)
    requires 0 < n <= |s| && FractionEnd(s) <= n
    ensures FractionEnd(s[..n]) == FractionEnd(s)
  {
    WholeOfPrefix(s, n);
    var p := WholeEnd(s);
    if p < n && s[p] == DOT {
      DigitsOfPrefix(s[p + 1..], n - p - 1);
      assert s[..n][p + 1..] == s[p + 1..][..n - p - 1];
    }
  }

  lemma StrtodByParts(s: seq<byte>)
    ensures StrtodLength(s) == if WholeEnd(s) == SignLength(s) && FractionEnd(s) <= WholeEnd(s) + 1 then 0
                               else FractionEnd(s) + ExponentLength(s[FractionEnd(s)..])
  {
    hide Digits, SignLength, ExponentLength;
  }

  lemma StrtodOfPrefix(s: seq<byte>)
    requires StrtodLength(s) > 0
    ensures StrtodLength(s[..StrtodLength(s)]) == StrtodLength(s)
  {
    hide StrtodLength, ExponentLength, WholeEnd, FractionEnd, SignLength;
    var n := StrtodLength(s);
    var q := FractionEnd(s);
    StrtodByParts(s);
    StrtodByParts(s[..n]);
    WholeOfPrefix(s, n);
    FractionOfPrefix(s, n);
    ExponentOfPrefix(s[q..]);
    assert s[..n][q..] == s[q..][..n - q];
  }

  // ---------------------------------------------------------------------------------------------
  // Parsed trees

  lemma ParsedNumber(s: seq<byte>)
    requires Terminated(s) && (s[0] == MINUS || IsDigit(s[0])) && ParseNumber(s).Got?
    ensures ParseNumber(s).value.Number?
    ensures IsNumberText(ParseNumber(s).value.lexeme)
  {
    hide StrtodLength, NumberRun;
    var run := s[..NumberRun(s, NUMBER_LIMIT)];
    var n := StrtodLength(run);
    StrtodOfPrefix(run);
    assert run[..n][0] == s[0];
  }

  lemma {:induction false} ParsedValue(s: seq<byte>, depth: nat)
    requires Terminated(s) && depth <= NESTING_LIMIT && ParseValue(s, depth).Got?
    ensures var j := ParseValue(s, depth).value;
      depth + Nesting(j) <= NESTING_LIMIT && Printable(j)
    decreases |s|, 1
  {
    hide ParseString, ParseNumber, ParseArray, ParseObject, IsNumberText;
    if NULL_TEXT <= s || FALSE_TEXT <= s || TRUE_TEXT <= s || s[0] == QUOTE {
    } else if s[0] == MINUS || IsDigit(s[0]) {
      ParsedNumber(s);
    } else if s[0] == LBRACKET {
      ParsedArray(s, depth);
    } else if s[0] == LBRACE {
      ParsedObject(s, depth);
    }
  }

  lemma {:induction false} ParsedArray(s: seq<byte>, depth: nat)
    requires Terminated(s) && s[0] == LBRACKET && depth <= NESTING_LIMIT && ParseArray(s, depth).Got?
    ensures var j := ParseArray(s, depth).value;
      depth + Nesting(j) <= NESTING_LIMIT && Printable(j)
    decreases |s|, 0
  {
    hide SkipWhitespace, ParseItems;
    var t := SkipWhitespace(s[1..]);
    if t[0] != RBRACKET { ParsedItems(t, depth + 1); }
  }

  lemma {:induction false} ParsedItems(s: seq<byte>, depth: nat)
    requires Terminated(s) && depth <= NESTING_LIMIT && ParseItems(s, depth).Got?
    ensures var items := ParseItems(s, depth).value;
      depth + ItemsNesting(items) <= NESTING_LIMIT && PrintableItems(items)
    decreases |s|, 2
  {
    hide SkipWhitespace, ParseValue;
    ParsedValue(s, depth);
    var t := SkipWhitespace(ParseValue(s, depth).rest);
    if t[0] == COMMA { ParsedItems(SkipWhitespace(t[1..]), depth); }
  }

  lemma {:induction false} ParsedObject(s: seq<byte>, depth: nat)
    requires Terminated(s) && s[0] == LBRACE && depth <= NESTING_LIMIT && ParseObject(s, depth).Got?
    ensures var j := ParseObject(s, depth).value;
      depth + Nesting(j) <= NESTING_LIMIT && Printable(j)
    decreases |s|, 0
  {
    hide SkipWhitespace, ParseMembers;
    var t := SkipWhitespace(s[1..]);
    if t[0] != RBRACE { ParsedMembers(t, depth + 1); }
  }

  lemma {:induction false} ParsedMembers(s: seq<byte>, depth: nat)
    requires Terminated(s) && depth <= NESTING_LIMIT && ParseMembers(s, depth).Got?
    ensures var ms := ParseMembers(s, depth).value;
      depth + MembersNesting(ms) <= NESTING_LIMIT && PrintableMembers(ms)
    decreases |s|, 2
  {
    hide SkipWhitespace, ParseValue, ParseKey;
    var u := ParseKey(s).rest;
    ParsedValue(u, depth);
    var t := SkipWhitespace(ParseValue(u, depth).rest);
    if t[0] == COMMA { ParsedMembers(SkipWhitespace(t[1..]), depth); }
  }

  /**
   * For every input at all, a successful parse yields a tree within the nesting limit, and printing
   * it in any layout and parsing again yields the same tree.
   */
  lemma ReparseIsStable(value: seq<byte>, opts: bool, st: Style)
    requires Layout(st) && ParseWithOpts(value, opts).Some?
    ensures Nesting(ParseWithOpts(value, opts).value) <= NESTING_LIMIT
    ensures Parse(Text(st, ParseWithOpts(value, opts).value, 0)) == ParseWithOpts(value, opts)
  {
    var j := ParseWithOpts(value, opts).value;
    hide ParseValue, SkipWhitespace, Text;
    ParsedValue(SkipWhitespace(CString(value) + [0]), 0);
    PrintParseRoundTrip(st, j, false);
  }
}
