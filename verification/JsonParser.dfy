/** The string scanner as the library runs it: two passes over the literal and an output array. */
module JsonStringParser {
  import opened Bytes
  import opened Utf8Core
  import opened JsonTree
  import opened JsonParse

  // ---------------------------------------------------------------------------------------------
  // The size estimate. The two passes may disagree on where escapes start, because the second one
  // swallows six or twelve bytes at a time after `\u`.

  /** Escapes that the first pass starts in the first `p` of the `n` literal bytes of `t`. */
  function Skipped(t: seq<byte>, n: nat, p: nat): (k: nat)
    requires n < |t|
    decreases n
  {
    if n == 0 || p == 0 then 0
    else if t[0] != BACKSLASH then Skipped(t[1..], n - 1, p - 1)
    else if n == 1 then 1
    else 1 + Skipped(t[2..], n - 2, if p == 1 then 0 else p - 2)
  }

  /** Escapes take two bytes, so at most every other byte starts one. */
  lemma {:induction false} SkippedGrowth(t: seq<byte>, n: nat, p: nat, d: nat)
    requires n < |t| && p + d <= n
    ensures Skipped(t, n, p + d) <= Skipped(t, n, p) + (d + 1) / 2
    decreases n
  {
    if n > 0 && d > 0 {
      if t[0] != BACKSLASH {
        if p == 0 { SkippedGrowth(t[1..], n - 1, 0, d - 1); } else { SkippedGrowth(t[1..], n - 1, p - 1, d); }
      } else if n > 1 {
        if p >= 2 {
          SkippedGrowth(t[2..], n - 2, p - 2, d);
        } else if p + d >= 2 {
          SkippedGrowth(t[2..], n - 2, 0, p + d - 2);
        }
      }
    }
  }

  /** No escape starts on a byte that is not a backslash. */
  lemma {:induction false} SkippedPlain(t: seq<byte>, n: nat, p: nat)
    requires p < n < |t| && t[p] != BACKSLASH
    ensures Skipped(t, n, p + 1) == Skipped(t, n, p)
    decreases n
  {
    if t[0] != BACKSLASH {
      if p > 0 { SkippedPlain(t[1..], n - 1, p - 1); }
    } else if p >= 2 {
      SkippedPlain(t[2..], n - 2, p - 2);
    }
  }

  /** No escape starts on the last byte of a literal: it would have hidden the closing quote. */
  lemma {:induction false} SkippedLast(t: seq<byte>, n: nat)
    requires LiteralLength(t) == Some(n) && n > 0
    ensures Skipped(t, n, n) == Skipped(t, n, n - 1)
    decreases n
  {
    if t[0] != BACKSLASH {
      if n > 1 { SkippedLast(t[1..], n - 1); }
    } else if n > 2 {
      SkippedLast(t[2..], n - 2);
    }
  }

  lemma {:induction false} SkippedBound(t: seq<byte>, n: nat, p: nat)
    requires n < |t| && p <= n
    ensures Skipped(t, n, p) <= p
    decreases n
  {
    SkippedGrowth(t, n, 0, p);
  }

  // ---------------------------------------------------------------------------------------------
  // First pass

  /** Escapes counted over a whole literal. */
  function Escapes(t: seq<byte>): nat {
    match LiteralLength(t)
    case None => 0
    case Some(n) => Skipped(t, n, n)
  }

  lemma LengthStep(u: seq<byte>)
    requires |u| > 0 && u[0] != QUOTE && !(|u| == 1 && u[0] == BACKSLASH)
    ensures var step := if u[0] == BACKSLASH then 2 else 1;
      LiteralLength(u) == Further(step, LiteralLength(u[step..]))
  {
  }

  lemma SkippedStep(u: seq<byte>, n: nat)
    requires 0 < n < |u| && (u[0] == BACKSLASH ==> n >= 2)
    ensures var step := if u[0] == BACKSLASH then 2 else 1;
      Skipped(u, n, n) == step - 1 + Skipped(u[step..], n - step, n - step)
  {
  }

  lemma ScanStep(u: seq<byte>)
    requires |u| > 0 && u[0] != QUOTE && !(|u| == 1 && u[0] == BACKSLASH)
    ensures var step := if u[0] == BACKSLASH then 2 else 1;
      && LiteralLength(u) == Further(step, LiteralLength(u[step..]))
      && (LiteralLength(u).Some? ==> Escapes(u) == step - 1 + Escapes(u[step..]))
  {
    hide LiteralLength, Skipped;
    LengthStep(u);
    if LiteralLength(u).Some? { SkippedStep(u, LiteralLength(u).value); }
  }

  lemma ScanEnds(u: seq<byte>)
    ensures u == [] || (|u| == 1 && u[0] == BACKSLASH) ==> LiteralLength(u) == None
    ensures |u| > 0 && u[0] == QUOTE ==> LiteralLength(u) == Some(0) && Escapes(u) == 0
  {
  }

  /** Position of the closing quote and number of escapes on the way. */
  method ScanLiteral(content: seq<byte>, start: nat) returns (end: Option<nat>, skipped: nat)
    requires start <= |content|
    ensures end == Further(start, LiteralLength(content[start..]))
    ensures end.Some? ==> skipped == Escapes(content[start..])
  {
    hide LiteralLength, Escapes;
    var pos := start;
    skipped := 0;
    ghost var t := content[start..];
    while pos < |content| && content[pos] != QUOTE
      invariant start <= pos <= |content|
      invariant LiteralLength(t) == Further(pos - start, LiteralLength(content[pos..]))
      invariant LiteralLength(t).Some? ==> Escapes(t) == skipped + Escapes(content[pos..])
    {
      ghost var u := content[pos..];
      ScanEnds(u);
      if content[pos] == BACKSLASH {
        if pos + 1 >= |content| {
          return None, 0;
        }
        assert u[2..] == content[pos + 2..];
        skipped := skipped + 1;
        pos := pos + 1;
      } else {
        assert u[1..] == content[pos + 1..];
      }
      ScanStep(u);
      pos := pos + 1;
    }
    ScanEnds(content[pos..]);
    if pos >= |content| {
      return None, 0;
    }
    end := Some(pos);
  }

  // ---------------------------------------------------------------------------------------------
  // Writing a code point

  function Shifted(cp: nat, j: nat): nat {
    if j == 0 then cp else Shifted(cp, j - 1) / 64
  }

  function FirstByteMark(len: nat): nat {
    if len == 2 then 0xc0 else if len == 3 then 0xe0 else if len == 4 then 0xf0 else 0
  }

  /** The octets of a code point are its base-64 digits with their marks. */
  lemma EncodeByShifts(cp: uint32)
    requires IsCodePointValid(cp)
    ensures var e := Encode(cp);
      && e[0] == Shifted(cp, |e| - 1) + FirstByteMark(|e|)
      && forall i :: 1 <= i < |e| ==> e[i] == Shifted(cp, |e| - 1 - i) % 64 + 0x80
  {
    assert Shifted(cp, 1) == cp / 64;
    assert Shifted(cp, 2) == cp / 64 / 64 == cp / 0x1000;
    assert Shifted(cp, 3) == cp / 64 / 64 / 64 == cp / 0x40000;
  }

  /** The encoding loop of `utf16_literal_to_utf8`: last octet first, then the lead octet. */
  method WriteCodePoint(output: array<byte>, at: nat, cp: uint32) returns (len: nat)
    requires IsCodePointValid(cp) && at + |Encode(cp)| <= output.Length
    modifies output
    ensures len == |Encode(cp)| && output[at..at + len] == Encode(cp)
    ensures output[..at] == old(output[..at])
  {
    EncodeByShifts(cp);
    len := if cp < 0x80 then 1 else if cp < 0x800 then 2 else if cp < 0x10000 then 3 else 4;
    hide Encode;
    var rest: nat := cp;
    var position := len - 1;
    while position > 0
      invariant 0 <= position < len
      invariant rest == Shifted(cp, len - 1 - position)
      invariant forall i :: position < i < len ==> output[at + i] == Encode(cp)[i]
      invariant output[..at] == old(output[..at])
    {
      output[at + position] := rest % 64 + 0x80;
      rest := rest / 64;
      position := position - 1;
    }
    output[at] := rest + FirstByteMark(len);
  }

  // ---------------------------------------------------------------------------------------------
  // Second pass

  /** What the second pass still has to decode from position `p` on. */
  function Remaining(t: seq<byte>, n: nat, p: nat): Option<seq<byte>>
    requires n < |t|
  {
    if p >= n then Some([]) else Decode(t[p..], n - p)
  }

  function Clip(p: nat, n: nat): nat { if p < n then p else n }

  /** Bytes the first pass allows for by position `p`. */
  function Room(t: seq<byte>, n: nat, p: nat): int
    requires n < |t|
  {
    Clip(p, n) - Skipped(t, n, Clip(p, n))
  }

  /** One step of the second pass: the bytes it writes and the position after it. */
  datatype Step = Stuck | Step(bytes: seq<byte>, to: nat)

  function DecodeStep(t: seq<byte>, n: nat, p: nat): (st: Step)
    requires p < n < |t|
    ensures st.Step? ==> st.to > p
  {
    if t[p] != BACKSLASH then Step([t[p]], p + 1)
    else if SimpleEscape(t[p + 1]).Some? then Step([SimpleEscape(t[p + 1]).value], p + 2)
    else if t[p + 1] == 117 then
      match Utf16Literal(t[p..], n - p)
      case BadLiteral => Stuck
      case Literal(cp, len) => Step(Encode(cp), p + len)
    else Stuck
  }

  lemma RemainingStep(t: seq<byte>, n: nat, p: nat)
    requires p < n < |t|
    ensures Remaining(t, n, p)
         == (match DecodeStep(t, n, p)
             case Stuck => None
             case Step(bytes, to) => Prefixed(bytes, Remaining(t, n, to)))
  {
    hide Utf16Literal, Encode, SimpleEscape;
    var u := t[p..];
    assert u[0] == t[p] && u[1] == t[p + 1];
    assert u[1..] == t[p + 1..];
    DecodeNothing(u[1..]);
    if n - p >= 2 { assert u[2..] == t[p + 2..]; }
    var l := Utf16Literal(u, n - p);
    if l.Literal? {
      assert u[l.len..] == t[p + l.len..];
      DecodeNothing(t[p + l.len..]);
    }
  }

  /** A step never writes more than the first pass set aside for the bytes it consumes. */
  lemma StepFits(t: seq<byte>, n: nat, p: nat)
    requires p < n && LiteralLength(t) == Some(n) && DecodeStep(t, n, p).Step?
    ensures var st := DecodeStep(t, n, p); |st.bytes| <= Room(t, n, st.to) - Room(t, n, p)
  {
    StepLength(t, n, p);
    var st := DecodeStep(t, n, p);
    hide DecodeStep, Skipped, LiteralLength;
    if t[p] != BACKSLASH {
      SkippedPlain(t, n, p);
    } else if p + 2 <= n {
      SkippedGrowth(t, n, p, st.to - p);
    } else {
      SkippedLast(t, n);
    }
  }

  lemma StepLength(t: seq<byte>, n: nat, p: nat)
    requires p < n < |t| && DecodeStep(t, n, p).Step?
    ensures var st := DecodeStep(t, n, p);
      if t[p] != BACKSLASH then |st.bytes| == 1 && st.to == p + 1
      else && |st.bytes| <= (st.to - p) - (st.to - p + 1) / 2 + (if p + 1 == n then 1 else 0)
           && (if p + 1 == n then st.to == p + 2 else st.to <= n)
           && (st.to - p == 2 ==> |st.bytes| == 1)
  {
    hide Encode, Utf16Literal;
    var u := Utf16Literal(t[p..], n - p);
    if u.Literal? { LiteralIsShort(u.cp, u.len); }
  }

  lemma LiteralIsShort(cp: uint32, len: nat)
    requires IsCodePointValid(cp) && (len == 6 || len == 12) && (len == 6 ==> cp < 0x10000)
    ensures |Encode(cp)| <= len - (len + 1) / 2
  {
  }

  lemma {:induction false} RoomGrows(t: seq<byte>, n: nat, p: nat)
    requires p <= n && LiteralLength(t) == Some(n)
    ensures 0 <= Room(t, n, p) <= n - Skipped(t, n, n)
    decreases n - p
  {
    SkippedBound(t, n, p);
    if p < n {
      RoomGrows(t, n, p + 1);
      if p + 1 == n { SkippedLast(t, n); } else { SkippedGrowth(t, n, p, 1); }
    }
  }

  /** The second pass, into an array sized by the first. */
  method DecodeLiteral(t: seq<byte>, n: nat, output: array<byte>) returns (ok: bool, written: nat)
    requires LiteralLength(t) == Some(n)
    requires output.Length == n + 2 - Skipped(t, n, n)
    modifies output
    ensures ok <==> Decode(t, n).Some?
    ensures ok ==> written < output.Length && output[..written] == Decode(t, n).value
  {
    hide Decode, LiteralLength, Skipped, DecodeStep;
    var p := 0;
    written := 0;
    DecodeStarts(t, n);
    RoomGrows(t, n, 0);
    assert output[..0] == [];
    while p < n
      invariant written <= Room(t, n, p) && written <= n - Skipped(t, n, n)
      invariant Prefixed(output[..written], Remaining(t, n, p)) == Decode(t, n)
      decreases n - p
    {
      hide Remaining;
      RemainingStep(t, n, p);
      var step := DecodeStep(t, n, p);
      if step.Stuck? {
        return false, written;
      }
      StepFits(t, n, p);
      RoomGrows(t, n, Clip(step.to, n));
      PrefixedTwice(output[..written], step.bytes, Remaining(t, n, step.to));
      written := Emit(t, n, p, output, written);
      p := step.to;
    }
    assert output[..written] + [] == output[..written];
    return true, written;
  }

  lemma DecodeStarts(t: seq<byte>, n: nat)
    requires n < |t|
    ensures Prefixed([], Remaining(t, n, 0)) == Decode(t, n)
  {
    DecodeNothing(t);
    hide Decode;
    assert t[0..] == t;
    if Decode(t, n).Some? { assert [] + Decode(t, n).value == Decode(t, n).value; }
  }

  /** Writes the bytes of one step. */
  method Emit(t: seq<byte>, n: nat, p: nat, output: array<byte>, written: nat) returns (w: nat)
    requires p < n < |t| && DecodeStep(t, n, p).Step?
    requires written + |DecodeStep(t, n, p).bytes| <= output.Length
    modifies output
    ensures w == written + |DecodeStep(t, n, p).bytes|
    ensures output[..w] == old(output[..written]) + DecodeStep(t, n, p).bytes
  {
    hide Utf16Literal, Encode, SimpleEscape;
    if t[p] != BACKSLASH {
      output[written] := t[p];
      w := written + 1;
    } else if SimpleEscape(t[p + 1]).Some? {
      output[written] := SimpleEscape(t[p + 1]).value;
      w := written + 1;
    } else {
      var len := WriteCodePoint(output, written, Utf16Literal(t[p..], n - p).cp);
      w := written + len;
      assert output[..w] == output[..written] + output[written..w];
    }
  }
}

/** The recursive-descent parser as the library runs it: a cursor over a byte buffer, updated in place. */
module JsonParser {
  import opened Bytes
  import opened JsonTree
  import opened JsonParse
  import opened JsonStringParser

  class ParseBuffer {
    const content: seq<byte>
    var offset: nat
    var depth: nat

    /** The content ends in NUL and the cursor is on some byte of it. */
    ghost predicate Valid()
      reads this
    {
      Terminated(content) && offset < |content|
    }

    /** The text from the cursor on. */
    ghost function Left(): (s: seq<byte>)
      requires Valid()
      reads this
      ensures Terminated(s)
    {
      content[offset..]
    }

    /** `cJSON_ParseWithOpts` reads the value up to its first NUL, which it keeps as a sentinel. */
    constructor (value: seq<byte>)
      ensures Valid() && content == CString(value) + [0] && offset == 0 && depth == 0
    {
      content := CString(value) + [0];
      offset := 0;
      depth := 0;
    }

    method SkipBlanks()
      requires Valid()
      modifies this`offset
      ensures Valid() && Left() == SkipWhitespace(old(Left())) && offset >= old(offset)
    {
      ghost var s := Left();
      while offset < |content| && content[offset] <= 32
        invariant old(offset) <= offset <= |content|
        invariant offset < |content| ==> SkipWhitespace(Left()) == SkipWhitespace(s)
        invariant offset == |content| ==> SkipWhitespace(s) == [0]
        decreases |content| - offset
      {
        assert Left()[1..] == content[offset + 1..];
        offset := offset + 1;
      }
      if offset == |content| {
        offset := offset - 1;
        assert Left() == [0];
      }
    }

    /** How a reader leaves the buffer: as the parsing function says, or with the cursor where it gave up. */
    ghost predicate Ended<T>(p: Parsed<T>, r: Option<T>, d: nat)
      reads this
    {
      match p
      case Fail => r == None && offset <= |content|
      case Got(v, rest) => r == Some(v) && Valid() && Left() == rest && depth == d
    }

    /** The same, once the blanks after the value are skipped. */
    ghost predicate EndedBlank(p: Parsed<Json>, r: Option<Json>, d: nat)
      requires p.Got? ==> Terminated(p.rest)
      reads this
    {
      if p.Fail? then r == None && offset <= |content|
      else r == Some(p.value) && Valid() && Left() == SkipWhitespace(p.rest) && depth == d
    }

    /** `parse_string`: scan, allocate by the estimate, decode. */
    method ReadString() returns (r: Option<seq<byte>>)
      requires Valid()
      modifies this`offset
      ensures Ended(ParseString(old(Left())), r, old(depth))
    {
      hide LiteralLength, Decode, Skipped, CString;
      if content[offset] != QUOTE {
        return None;
      }
      ghost var s := Left();
      var t := content[offset + 1..];
      assert s[1..] == t;
      var end, skipped := ScanLiteral(content, offset + 1);
      if end.None? {
        offset := offset + 1;
        return None;
      }
      var n := end.value - (offset + 1);
      LiteralRoom(t, n);
      var output := new byte[end.value - offset - skipped + 1];
      var ok, written := DecodeLiteral(t, n, output);
      if !ok {
        offset := offset + 1;
        return None;
      }
      offset := end.value + 1;
      assert content[offset..] == t[n + 1..];
      r := Some(CString(output[..written]));
    }

    method ReadNumber() returns (r: Option<Json>)
      requires Valid()
      modifies this`offset
      ensures Ended(ParseNumber(old(Left())), r, old(depth))
    {
      hide StrtodLength, NumberRun;
      ghost var s := Left();
      var i := CollectNumber(content, offset);
      var run := content[offset..offset + i];
      assert run == s[..i];
      var n := StrtodLength(run);
      if n == 0 {
        return None;
      }
      assert IsNumberChar(s[n - 1]);
      offset := offset + n;
      assert content[offset..] == s[n..];
      r := Some(Number(run[..n]));
    }

    /** The loop body of `parse_array`: step over the separator, then read one value and what is blank after it. */
    method ReadItem() returns (r: Option<Json>)
      requires Valid() && offset + 1 < |content|
      modifies this`offset, this`depth
      ensures EndedBlank(ParseValue(SkipWhitespace(old(content[offset + 1..])), old(depth)), r, old(depth))
      ensures r.Some? ==> offset > old(offset)
      decreases |content| - offset, 0
    {
      hide ParseValue, SkipWhitespace;
      offset := offset + 1;
      assert Left() == old(content[offset + 1..]);
      SkipBlanks();
      r := ReadValue();
      if r.Some? {
        SkipBlanks();
      }
    }

    method ReadArray() returns (r: Option<Json>)
      requires Valid() && content[offset] == LBRACKET
      modifies this`offset, this`depth
      ensures Ended(ParseArray(old(Left()), old(depth)), r, old(depth))
      decreases |content| - offset, 3
    {
      hide SkipWhitespace, ItemsFrom, ParseArray;
      ArrayCases(Left(), depth);
      if depth >= NESTING_LIMIT {
        return None;
      }
      depth := depth + 1;
      var body := ReadArrayBody();
      if body.None? {
        return None;
      }
      depth := depth - 1;
      r := Some(Array(body.value));
    }

    /** From the opening to the closing bracket. */
    method ReadArrayBody() returns (r: Option<Items>)
      requires Valid() && content[offset] == LBRACKET && Terminated(Left()[1..])
      modifies this`offset, this`depth
      ensures Ended(ItemsFrom(SkipWhitespace(old(Left()[1..])), old(depth)), r, old(depth))
      decreases |content| - offset, 2
    {
      hide SkipWhitespace, ParseItems;
      ghost var s := Left();
      offset := offset + 1;
      assert Left() == s[1..];
      SkipBlanks();
      ghost var first := Left();
      if content[offset] == RBRACKET {
        offset := offset + 1;
        assert content[offset..] == first[1..];
        return Some(NoItem);
      }
      offset := offset - 1;
      SkipAgain(s[1..]);
      assert content[offset + 1..] == first;
      r := ReadItems(first);
    }

    /** The loop of `parse_array`, from the byte in front of the first item to the closing bracket. */
    method ReadItems(ghost first: seq<byte>) returns (r: Option<Items>)
      requires Valid() && offset + 1 < |content|
      requires SkipWhitespace(content[offset + 1..]) == first
      modifies this`offset, this`depth
      ensures Terminated(first) && Ended(ParseItems(first, old(depth)), r, old(depth))
      decreases |content| - offset, 1
    {
      hide ParseValue, SkipWhitespace, ParseItems;
      var built: seq<Json> := [];
      ghost var pending, d := first, depth;
      var more := true;
      while more
        invariant Valid() && offset >= old(offset) && depth == old(depth)
        invariant more ==> offset + 1 < |content| && pending == SkipWhitespace(content[offset + 1..])
        invariant more ==> ParseItems(first, depth) == Chained(built, ParseItems(pending, depth))
        invariant !more ==> ParseItems(first, depth) == Closed(built, Left())
        decreases more, |content| - offset
      {
        ghost var here := pending;
        var item := ReadItem();
        ItemsStep(here, d, built);
        if item.None? {
          return None;
        }
        built := built + [item.value];
        more := content[offset] == COMMA;
        if more {
          assert content[offset + 1..] == Left()[1..];
          pending := SkipWhitespace(content[offset + 1..]);
        }
      }
      if content[offset] != RBRACKET {
        return None;
      }
      assert content[offset + 1..] == Left()[1..];
      offset := offset + 1;
      r := Some(Link(built, NoItem));
    }

    /** One round of `parse_object` up to the value: step over the separator, read the key and its colon. */
    method ReadKey() returns (r: Option<seq<byte>>)
      requires Valid() && offset + 1 < |content|
      modifies this`offset
      ensures Ended(ParseKey(SkipWhitespace(old(content[offset + 1..]))), r, old(depth))
      ensures r.Some? ==> offset > old(offset)
    {
      hide ParseString, SkipWhitespace;
      offset := offset + 1;
      assert Left() == old(content[offset + 1..]);
      SkipBlanks();
      var key := ReadString();
      if key.None? {
        return None;
      }
      SkipBlanks();
      if content[offset] != COLON {
        return None;
      }
      ghost var t := Left();
      offset := offset + 1;
      assert Left() == t[1..];
      SkipBlanks();
      r := key;
    }

    /** The loop of `parse_object`, from the byte in front of the first key to the closing brace. */
    method ReadMembers(ghost first: seq<byte>) returns (r: Option<Members>)
      requires Valid() && offset + 1 < |content|
      requires SkipWhitespace(content[offset + 1..]) == first
      modifies this`offset, this`depth
      ensures Terminated(first) && Ended(ParseMembers(first, old(depth)), r, old(depth))
      decreases |content| - offset, 1
    {
      hide ParseValue, SkipWhitespace, ParseMembers, ParseKey;
      var built: seq<(seq<byte>, Json)> := [];
      ghost var pending, d := first, depth;
      var more := true;
      while more
        invariant Valid() && offset >= old(offset) && depth == d
        invariant more ==> offset + 1 < |content| && pending == SkipWhitespace(content[offset + 1..])
        invariant more ==> ParseMembers(first, d) == ChainedMembers(built, ParseMembers(pending, d))
        invariant !more ==> ParseMembers(first, d) == ClosedMembers(built, Left())
        decreases more, |content| - offset
      {
        ghost var here := pending;
        MembersStep(here, d, built);
        var key := ReadKey();
        if key.None? {
          return None;
        }
        var value := ReadValue();
        if value.None? {
          return None;
        }
        SkipBlanks();
        built := built + [(key.value, value.value)];
        more := content[offset] == COMMA;
        if more {
          assert content[offset + 1..] == Left()[1..];
          pending := SkipWhitespace(content[offset + 1..]);
        }
      }
      if content[offset] != RBRACE {
        return None;
      }
      assert content[offset + 1..] == Left()[1..];
      offset := offset + 1;
      r := Some(LinkMembers(built, NoMember));
    }

    method ReadObject() returns (r: Option<Json>)
      requires Valid() && content[offset] == LBRACE
      modifies this`offset, this`depth
      ensures Ended(ParseObject(old(Left()), old(depth)), r, old(depth))
      decreases |content| - offset, 3
    {
      hide SkipWhitespace, MembersFrom, ParseObject;
      ObjectCases(Left(), depth);
      if depth >= NESTING_LIMIT {
        return None;
      }
      depth := depth + 1;
      var body := ReadObjectBody();
      if body.None? {
        return None;
      }
      depth := depth - 1;
      r := Some(Object(body.value));
    }

    /** From the opening to the closing brace. */
    method ReadObjectBody() returns (r: Option<Members>)
      requires Valid() && content[offset] == LBRACE && Terminated(Left()[1..])
      modifies this`offset, this`depth
      ensures Ended(MembersFrom(SkipWhitespace(old(Left()[1..])), old(depth)), r, old(depth))
      decreases |content| - offset, 2
    {
      hide SkipWhitespace, ParseMembers;
      ghost var s := Left();
      offset := offset + 1;
      assert Left() == s[1..];
      SkipBlanks();
      ghost var first := Left();
      if content[offset] == RBRACE {
        offset := offset + 1;
        assert content[offset..] == first[1..];
        return Some(NoMember);
      }
      offset := offset - 1;
      SkipAgain(s[1..]);
      assert content[offset + 1..] == first;
      r := ReadMembers(first);
    }

    /** `parse_value`: dispatch on the first bytes. */
    method ReadValue() returns (r: Option<Json>)
      requires Valid()
      modifies this`offset, this`depth
      ensures Ended(ParseValue(old(Left()), old(depth)), r, old(depth))
      decreases |content| - offset, 4
    {
      hide ParseString, ParseNumber, ParseArray, ParseObject;
      ghost var s := Left();
      assert s[0] == content[offset];
      if NULL_TEXT <= content[offset..] {
        offset := offset + 4;
        assert content[offset..] == s[4..];
        r := Some(Null);
      } else if FALSE_TEXT <= content[offset..] {
        offset := offset + 5;
        assert content[offset..] == s[5..];
        r := Some(False);
      } else if TRUE_TEXT <= content[offset..] {
        offset := offset + 4;
        assert content[offset..] == s[4..];
        r := Some(True);
      } else if content[offset] == QUOTE {
        var text := ReadString();
        r := if text.Some? then Some(String(text.value)) else None;
      } else if content[offset] == MINUS || IsDigit(content[offset]) {
        r := ReadNumber();
      } else if content[offset] == LBRACKET {
        r := ReadArray();
      } else if content[offset] == LBRACE {
        r := ReadObject();
      } else {
        r := None;
      }
    }
  }

  /** `cJSON_ParseWithOpts` on a fresh buffer. */
  method RunParse(value: seq<byte>, requireNullTerminated: bool) returns (r: Option<Json>)
    ensures r == ParseWithOpts(value, requireNullTerminated)
  {
    hide ParseValue, SkipWhitespace, CString;
    var buffer := new ParseBuffer(value);
    assert buffer.Left() == buffer.content;
    buffer.SkipBlanks();
    r := buffer.ReadValue();
    if r.Some? && requireNullTerminated {
      buffer.SkipBlanks();
      if buffer.content[buffer.offset] != 0 {
        r := None;
      }
    }
  }

  function ArrayOf(p: Parsed<Items>): Parsed<Json> {
    if p.Got? then Got(Array(p.value), p.rest) else Fail
  }

  /** The items of an array, from the first visible byte after its opening bracket. */
  function ItemsFrom(t: seq<byte>, d: nat): Parsed<Items>
    requires Terminated(t)
  {
    if t[0] == RBRACKET then Got(NoItem, t[1..]) else ParseItems(t, d)
  }

  lemma ArrayCases(s: seq<byte>, d: nat)
    requires Terminated(s) && s[0] == LBRACKET
    ensures d >= NESTING_LIMIT ==> ParseArray(s, d) == Fail
    ensures Terminated(s[1..])
    ensures d < NESTING_LIMIT ==> ParseArray(s, d) == ArrayOf(ItemsFrom(SkipWhitespace(s[1..]), d + 1))
  {
    hide ParseItems, SkipWhitespace;
  }

  function ObjectOf(p: Parsed<Members>): Parsed<Json> {
    if p.Got? then Got(Object(p.value), p.rest) else Fail
  }

  function MembersFrom(t: seq<byte>, d: nat): Parsed<Members>
    requires Terminated(t)
  {
    if t[0] == RBRACE then Got(NoMember, t[1..]) else ParseMembers(t, d)
  }

  lemma ObjectCases(s: seq<byte>, d: nat)
    requires Terminated(s) && s[0] == LBRACE
    ensures d >= NESTING_LIMIT ==> ParseObject(s, d) == Fail
    ensures Terminated(s[1..])
    ensures d < NESTING_LIMIT ==> ParseObject(s, d) == ObjectOf(MembersFrom(SkipWhitespace(s[1..]), d + 1))
  {
    hide ParseMembers, SkipWhitespace;
  }

  // The same for object members.

  function LinkMembers(built: seq<(seq<byte>, Json)>, rest: Members): Members {
    if built == [] then rest else Member(built[0].0, built[0].1, LinkMembers(built[1..], rest))
  }

  function ChainedMembers(built: seq<(seq<byte>, Json)>, p: Parsed<Members>): Parsed<Members> {
    if p.Got? then Got(LinkMembers(built, p.value), p.rest) else Fail
  }

  function ClosedMembers(built: seq<(seq<byte>, Json)>, t: seq<byte>): Parsed<Members>
    requires t != []
  {
    if t[0] == RBRACE then Got(LinkMembers(built, NoMember), t[1..]) else Fail
  }

  lemma {:induction false} LinkLastMember(built: seq<(seq<byte>, Json)>, k: seq<byte>, v: Json, rest: Members)
    ensures LinkMembers(built + [(k, v)], rest) == LinkMembers(built, Member(k, v, rest))
  {
    if built == [] {
      assert built + [(k, v)] == [(k, v)];
    } else {
      TailOfConcat(built, [(k, v)]);
      LinkLastMember(built[1..], k, v, rest);
    }
  }

  /** What one more value makes of the members built so far. */
  function AfterMember(k: seq<byte>, p: Parsed<Json>, d: nat, built: seq<(seq<byte>, Json)>): Parsed<Members>
    requires p.Got? ==> Terminated(p.rest)
  {
    if p.Fail? then Fail else
    var t := SkipWhitespace(p.rest);
    if t[0] == COMMA then ChainedMembers(built + [(k, p.value)], ParseMembers(SkipWhitespace(t[1..]), d))
    else ClosedMembers(built + [(k, p.value)], t)
  }

  function AfterKey(q: Parsed<seq<byte>>, d: nat, built: seq<(seq<byte>, Json)>): Parsed<Members>
    requires q.Got? ==> Terminated(q.rest)
  {
    if q.Fail? then Fail else AfterMember(q.value, ParseValue(q.rest, d), d, built)
  }

  lemma MembersStep(s: seq<byte>, d: nat, built: seq<(seq<byte>, Json)>)
    requires Terminated(s)
    ensures ChainedMembers(built, ParseMembers(s, d)) == AfterKey(ParseKey(s), d, built)
  {
    if ParseKey(s).Got? {
      var k := ParseKey(s).value;
      var p := ParseValue(ParseKey(s).rest, d);
      hide ParseKey;
      if p.Got? {
        LinkLastMember(built, k, p.value, NoMember);
        var t := SkipWhitespace(p.rest);
        if t[0] == COMMA {
          var q := ParseMembers(SkipWhitespace(t[1..]), d);
          if q.Got? { LinkLastMember(built, k, p.value, q.value); }
        }
      }
    }
  }

  /** An array list under construction: items linked so far, then the rest. */
  function Link(built: seq<Json>, rest: Items): Items {
    if built == [] then rest else Item(built[0], Link(built[1..], rest))
  }

  function Chained(built: seq<Json>, p: Parsed<Items>): Parsed<Items> {
    match p
    case Fail => Fail
    case Got(items, rest) => Got(Link(built, items), rest)
  }

  lemma {:induction false} LinkLast(built: seq<Json>, v: Json, rest: Items)
    ensures Link(built + [v], rest) == Link(built, Item(v, rest))
  {
    if built == [] {
      assert built + [v] == [v];
    } else {
      TailOfConcat(built, [v]);
      LinkLast(built[1..], v, rest);
    }
  }

  lemma {:induction false} SkipAgain(s: seq<byte>)
    requires Terminated(s)
    ensures SkipWhitespace(SkipWhitespace(s)) == SkipWhitespace(s)
  {
    if |s| > 1 && s[0] <= 32 { SkipAgain(s[1..]); }
  }

  /** The list ends here if the closing bracket follows. */
  function Closed(built: seq<Json>, t: seq<byte>): Parsed<Items>
    requires t != []
  {
    if t[0] == RBRACKET then Got(Link(built, NoItem), t[1..]) else Fail
  }

  /** What one more value makes of the list built so far. */
  function AfterItem(p: Parsed<Json>, d: nat, built: seq<Json>): Parsed<Items>
    requires p.Got? ==> Terminated(p.rest)
  {
    if p.Fail? then Fail else
    var t := SkipWhitespace(p.rest);
    if t[0] == COMMA then Chained(built + [p.value], ParseItems(SkipWhitespace(t[1..]), d))
    else Closed(built + [p.value], t)
  }

  /** Unfolds one item of an array list into the chain built so far. */
  lemma ItemsStep(s: seq<byte>, d: nat, built: seq<Json>)
    requires Terminated(s)
    ensures Chained(built, ParseItems(s, d)) == AfterItem(ParseValue(s, d), d, built)
  {
    var p := ParseValue(s, d);
    if p.Got? {
      LinkLast(built, p.value, NoItem);
      var t := SkipWhitespace(p.rest);
      if t[0] == COMMA {
        var q := ParseItems(SkipWhitespace(t[1..]), d);
        if q.Got? { LinkLast(built, p.value, q.value); }
      }
    }
  }

  method CollectNumber(content: seq<byte>, offset: nat) returns (i: nat)
    requires offset <= |content|
    ensures i == NumberRun(content[offset..], NUMBER_LIMIT)
  {
    hide NumberRun;
    ghost var s := content[offset..];
    i := 0;
    assert s[0..] == s;
    while i < NUMBER_LIMIT && offset + i < |content| && IsNumberChar(content[offset + i])
      invariant i <= NUMBER_LIMIT && offset + i <= |content|
      invariant i + NumberRun(s[i..], NUMBER_LIMIT - i) == NumberRun(s, NUMBER_LIMIT)
    {
      RunStep(s[i..], NUMBER_LIMIT - i);
      assert s[i..][1..] == s[i + 1..];
      i := i + 1;
    }
    RunStops(s[i..], NUMBER_LIMIT - i);
  }

  lemma RunStep(s: seq<byte>, limit: nat)
    requires limit > 0 && s != [] && IsNumberChar(s[0])
    ensures NumberRun(s, limit) == 1 + NumberRun(s[1..], limit - 1)
  {
  }

  lemma RunStops(s: seq<byte>, limit: nat)
    requires limit == 0 || s == [] || !IsNumberChar(s[0])
    ensures NumberRun(s, limit) == 0
  {
  }

  lemma LiteralRoom(t: seq<byte>, n: nat)
    requires LiteralLength(t) == Some(n)
    ensures Escapes(t) == Skipped(t, n, n) <= n
  {
    SkippedBound(t, n, n);
  }
}
