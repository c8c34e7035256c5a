/** Strings as section 7 of RFC 8259 writes them, and what they stand for. */
module JsonStrings {
  import opened Bytes
  import opened Utf8Core
  import opened JsonTree
  import opened JsonParse
  import opened JsonRoundTrip
  import Utf16

  type uint16 = Utf16.uint16

  /** A character of a string: an octet as it is, a two-character escape, or a UTF-16 code unit in hexadecimal. */
  datatype JsonChar =
    | Raw(b: byte)
    | Short(letter: byte)
    | Unicode(x: uint16, upper: seq<bool>)

  /** The two-character escapes, and the octets they stand for. */
  const SHORT: map<byte, byte> := map[34 := 34, 92 := 92, 47 := 47, 98 := 8, 102 := 12, 110 := 10, 114 := 13, 116 := 9]

  ghost predicate IsChar(c: JsonChar) {
    match c
    case Raw(b) => b != 0 && b != 34 && b != 92
    case Short(letter) => letter in SHORT
    case Unicode(_, upper) => |upper| == 4
  }

  /** Section 7 does not allow control characters as they are; the reader does. */
  predicate IsRfcChar(c: JsonChar) { c.Raw? ==> c.b >= 0x20 }

  ghost predicate AllChars(cs: seq<JsonChar>) { forall i :: 0 <= i < |cs| ==> IsChar(cs[i]) }

  /** A hexadecimal digit in either case. */
  function HexText(v: nat, upper: bool): byte
    requires v < 16
  {
    if v < 10 then 48 + v else if upper then 65 + (v - 10) else 97 + (v - 10)
  }

  function CharText(c: JsonChar): seq<byte>
    requires IsChar(c)
  {
    match c
    case Raw(b) => [b]
    case Short(letter) => [92, letter]
    case Unicode(x, upper) => [92, 117] + UnitText(x, upper)
  }

  function UnitText(x: uint16, upper: seq<bool>): (r: seq<byte>)
    requires |upper| == 4
    ensures |r| == 4
  {
    [HexText(x / 0x1000, upper[0]), HexText(x / 0x100 % 16, upper[1]),
     HexText(x / 16 % 16, upper[2]), HexText(x % 16, upper[3])]
  }

  ghost function CharsText(cs: seq<JsonChar>): seq<byte>
    requires AllChars(cs)
  {
    if cs == [] then [] else CharText(cs[0]) + CharsText(cs[1..])
  }

  /** What the characters stand for, in UTF-8; nothing if a surrogate stands alone. */
  ghost function Meaning(cs: seq<JsonChar>): Option<seq<byte>>
    requires AllChars(cs)
  {
    if cs == [] then Some([])
    else match cs[0]
      case Raw(b) => Prefixed([b], Meaning(cs[1..]))
      case Short(letter) => Prefixed([SHORT[letter]], Meaning(cs[1..]))
      case Unicode(x, _) =>
        if 0xdc00 <= x <= 0xdfff then None
        else if 0xd800 <= x <= 0xdbff then
          if |cs| > 1 && cs[1].Unicode? && 0xdc00 <= cs[1].x <= 0xdfff
          then Prefixed(Encode(0x10000 + (x - 0xd800) * 0x400 + (cs[1].x - 0xdc00)), Meaning(cs[2..]))
          else None
        else Prefixed(Encode(x), Meaning(cs[1..]))
  }

  // ---------------------------------------------------------------------------------------------
  // Reading

  lemma HexTextReads(v: nat, upper: bool)
    requires v < 16
    ensures HexValue(HexText(v, upper)) == Some(v)
    ensures HexText(v, upper) != QUOTE && HexText(v, upper) != BACKSLASH
  {
  }

  lemma UnitReads(x: uint16, upper: seq<bool>)
    requires |upper| == 4
    ensures Hex4(UnitText(x, upper)) == x
    ensures forall i :: 0 <= i < 4 ==> UnitText(x, upper)[i] != QUOTE && UnitText(x, upper)[i] != BACKSLASH
  {
    HexTextReads(x / 0x1000, upper[0]);
    HexTextReads(x / 0x100 % 16, upper[1]);
    HexTextReads(x / 16 % 16, upper[2]);
    HexTextReads(x % 16, upper[3]);
    NibblesJoin(x);
    hide HexText, HexValue, Nibbles;
  }

  /** Every escape of section 7 of RFC 8259 stands for its octet, and no other letter makes one. */
  lemma ShortReads(letter: byte)
    ensures SimpleEscape(letter) == if letter in SHORT then Some(SHORT[letter]) else None
  {
  }

  /** The first pass steps over one character. */
  lemma ScanChar(c: JsonChar, s: seq<byte>)
    requires IsChar(c)
    ensures LiteralLength(CharText(c) + s) == Further(|CharText(c)|, LiteralLength(s))
  {
    match c
    case Raw(b) => ScanPlain(b, s);
    case Short(letter) => ScanPair(letter, s);
    case Unicode(x, upper) =>
      UnitReads(x, upper);
      hide UnitText;
      ScanUnicode(CharText(c), s);
  }

  lemma {:induction false} ScanChars(cs: seq<JsonChar>, s: seq<byte>)
    requires AllChars(cs) && s != [] && s[0] == QUOTE
    ensures LiteralLength(CharsText(cs) + s) == Some(|CharsText(cs)|)
  {
    if cs == [] {
      assert CharsText(cs) + s == s;
      ScanQuote(s);
    } else {
      hide LiteralLength, CharText;
      var head, tail := CharText(cs[0]), CharsText(cs[1..]);
      ScanChars(cs[1..], s);
      ScanChar(cs[0], tail + s);
      Assoc(head, tail, s);
    }
  }

  lemma DecodeRaw(b: byte, s: seq<byte>, n: nat)
    requires b != BACKSLASH && n < |s|
    ensures Decode([b] + s, 1 + n) == Prefixed([b], Decode(s, n))
  {
    CutConcat([b], s);
  }

  lemma DecodeShort(letter: byte, s: seq<byte>, n: nat)
    requires letter in SHORT && n < |s|
    ensures Decode([92, letter] + s, 2 + n) == Prefixed([SHORT[letter]], Decode(s, n))
  {
    ShortReads(letter);
    CutConcat([92, letter], s);
    DecodeNothing(s);
    hide SimpleEscape;
  }

  /** A code unit that is no surrogate. */
  lemma DecodeUnit(x: uint16, upper: seq<bool>, s: seq<byte>, n: nat)
    requires |upper| == 4 && n < |s| && !(0xd800 <= x <= 0xdfff)
    ensures Decode([92, 117] + UnitText(x, upper) + s, 6 + n) == Prefixed(Encode(x), Decode(s, n))
  {
    var e := [92, 117] + UnitText(x, upper);
    UnitReads(x, upper);
    CutConcat(e, s);
    assert (e + s)[2..6] == UnitText(x, upper);
    assert SimpleEscape(117) == None;
    assert Utf16Literal(e + s, 6 + n) == Literal(x, 6);
    hide UnitText, Hex4, Encode, SimpleEscape, Utf16Literal;
  }

  lemma DecodePair(x: uint16, u: seq<bool>, y: uint16, v: seq<bool>, s: seq<byte>, n: nat)
    requires |u| == 4 == |v| && n < |s| && 0xd800 <= x <= 0xdbff && 0xdc00 <= y <= 0xdfff
    ensures Decode([92, 117] + UnitText(x, u) + ([92, 117] + UnitText(y, v) + s), 12 + n)
         == Prefixed(Encode(0x10000 + (x - 0xd800) * 0x400 + (y - 0xdc00)), Decode(s, n))
  {
    var e, f := [92, 117] + UnitText(x, u), [92, 117] + UnitText(y, v);
    var t := e + (f + s);
    UnitReads(x, u);
    UnitReads(y, v);
    Assoc(e, f, s);
    CutConcat(e + f, s);
    assert t[2..6] == UnitText(x, u) && t[8..12] == UnitText(y, v) && t[6] == 92 && t[7] == 117;
    assert SimpleEscape(117) == None;
    Halves(x, y);
    assert Utf16Literal(t, 12 + n) == Literal(0x10000 + (x - 0xd800) * 0x400 + (y - 0xdc00), 12);
    hide UnitText, Hex4, Encode, SimpleEscape, Utf16Literal;
  }

  lemma Halves(x: int, y: int)
    requires 0xd800 <= x <= 0xdbff && 0xdc00 <= y <= 0xdfff
    ensures x % 0x400 == x - 0xd800 && y % 0x400 == y - 0xdc00
  {
  }

  /** A surrogate without its other half. */
  lemma DecodeLone(x: uint16, upper: seq<bool>, s: seq<byte>, n: nat)
    requires |upper| == 4 && n < |s| && 0xd800 <= x <= 0xdfff
    requires x <= 0xdbff && n >= 6 && s[0] == 92 && s[1] == 117 ==> !(0xdc00 <= Hex4(s[2..6]) <= 0xdfff)
    ensures Decode([92, 117] + UnitText(x, upper) + s, 6 + n) == None
  {
    var e := [92, 117] + UnitText(x, upper);
    var t := e + s;
    UnitReads(x, upper);
    assert t[2..6] == UnitText(x, upper);
    assert SimpleEscape(117) == None;
    if n >= 6 {
      assert t[8..12] == s[2..6] && t[6] == s[0] && t[7] == s[1];
    }
    assert Utf16Literal(t, 6 + n) == BadLiteral;
    hide UnitText, Hex4, SimpleEscape, Utf16Literal;
  }

  /** Reading the characters gives what they stand for, and fails exactly on a lone surrogate. */
  lemma {:induction false} CharsAreRead(cs: seq<JsonChar>, s: seq<byte>)
    requires AllChars(cs) && s != []
    ensures Decode(CharsText(cs) + s, |CharsText(cs)|) == Meaning(cs)
    decreases |cs|
  {
    if cs == [] {
      assert CharsText(cs) + s == s;
      DecodeNothing(s);
    } else if cs[0].Unicode? && 0xd800 <= cs[0].x <= 0xdfff {
      SurrogateIsRead(cs, s);
    } else {
      var head, tail := CharText(cs[0]), CharsText(cs[1..]);
      CharsAreRead(cs[1..], s);
      Assoc(head, tail, s);
      match cs[0]
      case Raw(b) => DecodeRaw(b, tail + s, |tail|);
      case Short(letter) => DecodeShort(letter, tail + s, |tail|);
      case Unicode(x, upper) => DecodeUnit(x, upper, tail + s, |tail|);
      hide Decode, UnitText, Encode;
    }
  }

  ghost predicate Pair(cs: seq<JsonChar>) {
    && |cs| > 1 && cs[0].Unicode? && 0xd800 <= cs[0].x <= 0xdbff
    && cs[1].Unicode? && 0xdc00 <= cs[1].x <= 0xdfff
  }

  lemma {:induction false} SurrogateIsRead(cs: seq<JsonChar>, s: seq<byte>)
    requires AllChars(cs) && s != [] && cs != [] && cs[0].Unicode? && 0xd800 <= cs[0].x <= 0xdfff
    ensures Decode(CharsText(cs) + s, |CharsText(cs)|) == Meaning(cs)
    decreases |cs|, 0
  {
    if Pair(cs) {
      CharsAreRead(cs[2..], s);
      PairIsRead(cs, s);
    } else {
      LoneIsRead(cs, s);
    }
    hide Decode, CharsText, Meaning;
  }

  lemma PairIsRead(cs: seq<JsonChar>, s: seq<byte>)
    requires AllChars(cs) && s != [] && Pair(cs)
    requires Decode(CharsText(cs[2..]) + s, |CharsText(cs[2..])|) == Meaning(cs[2..])
    ensures Decode(CharsText(cs) + s, |CharsText(cs)|) == Meaning(cs)
  {
    hide Decode, UnitText, Encode;
    var e, f, rest := CharText(cs[0]), CharText(cs[1]), CharsText(cs[2..]);
    assert cs[1..][1..] == cs[2..];
    assert CharsText(cs[1..]) == f + rest;
    assert CharsText(cs) == e + (f + rest);
    Assoc(f, rest, s);
    Assoc(e, f + rest, s);
    DecodePair(cs[0].x, cs[0].upper, cs[1].x, cs[1].upper, rest + s, |rest|);
    hide CharsText;
  }

  lemma LoneIsRead(cs: seq<JsonChar>, s: seq<byte>)
    requires AllChars(cs) && s != [] && cs != [] && cs[0].Unicode? && 0xd800 <= cs[0].x <= 0xdfff && !Pair(cs)
    ensures Decode(CharsText(cs) + s, |CharsText(cs)|) == Meaning(cs)
  {
    hide Decode, UnitText, Encode, Hex4;
    var e, tail := CharText(cs[0]), CharsText(cs[1..]);
    assert CharsText(cs) == e + tail && Meaning(cs) == None;
    Assoc(e, tail, s);
    if cs[0].x <= 0xdbff {
      NoSecondHalf(cs[1..], s);
    }
    DecodeLone(cs[0].x, cs[0].upper, tail + s, |tail|);
    hide CharsText;
  }

  /** What does not start with the second half of a pair does not look like it either. */
  lemma NoSecondHalf(cs: seq<JsonChar>, s: seq<byte>)
    requires AllChars(cs) && s != []
    requires cs != [] && cs[0].Unicode? ==> !(0xdc00 <= cs[0].x <= 0xdfff)
    ensures var t, n := CharsText(cs) + s, |CharsText(cs)|;
      n >= 6 && t[0] == 92 && t[1] == 117 ==> !(0xdc00 <= Hex4(t[2..6]) <= 0xdfff)
  {
    if cs != [] {
      var head, tail := CharText(cs[0]), CharsText(cs[1..]);
      Assoc(head, tail, s);
      if cs[0].Unicode? {
        UnitReads(cs[0].x, cs[0].upper);
        assert (head + (tail + s))[2..6] == UnitText(cs[0].x, cs[0].upper);
        hide UnitText, Hex4;
      } else {
        assert 117 !in SHORT;
        hide Hex4;
      }
    }
  }

  lemma AfterQuote(text: seq<byte>, rest: seq<byte>)
    ensures (text + ([QUOTE] + rest))[|text| + 1..] == rest
  {
  }

  /** Every string of section 7 of RFC 8259 is read as what it stands for, up to its first NUL. */
  lemma StringIsRead(cs: seq<JsonChar>, rest: seq<byte>)
    requires AllChars(cs) && Terminated(rest)
    ensures var s := [QUOTE] + (CharsText(cs) + ([QUOTE] + rest));
      && Terminated(s)
      && ParseString(s) == if Meaning(cs).Some? then Got(CString(Meaning(cs).value), rest) else Fail
  {
    hide Decode, LiteralLength, CharsText, Meaning, CString;
    var text, tail := CharsText(cs), [QUOTE] + rest;
    var s := [QUOTE] + (text + tail);
    CutConcat([QUOTE], text + tail);
    ScanChars(cs, tail);
    CharsAreRead(cs, tail);
    AfterQuote(text, rest);
    assert s[|s| - 1] == rest[|rest| - 1];
  }

  // ---------------------------------------------------------------------------------------------
  // Printing

  /** The character the printer writes for an octet. */
  function Printed(b: byte): JsonChar {
    if b == 34 then Short(34)
    else if b == 92 then Short(92)
    else if b == 8 then Short(98)
    else if b == 12 then Short(102)
    else if b == 10 then Short(110)
    else if b == 13 then Short(114)
    else if b == 9 then Short(116)
    else if b < 32 then Unicode(b, [false, false, false, false])
    else Raw(b)
  }

  lemma PrintedByte(b: byte)
    requires b != 0
    ensures IsChar(Printed(b)) && IsRfcChar(Printed(b)) && CharText(Printed(b)) == EscapeByte(b)
  {
    if b < 32 { SmallUnit(b); }
  }

  lemma SmallUnit(b: byte)
    requires b < 32
    ensures b / 0x1000 == 0 && b / 0x100 % 16 == 0 && b / 16 % 16 == b / 16
  {
  }

  /** What the printer writes between the quotes is a string of section 7 of RFC 8259 that stands for the text. */
  lemma {:induction false} PrintedIsJson(t: seq<byte>) returns (cs: seq<JsonChar>)
    requires NulFree(t)
    ensures AllChars(cs) && (forall i :: 0 <= i < |cs| ==> IsRfcChar(cs[i]))
    ensures CharsText(cs) == Escape(t) && Meaning(cs) == Some(t)
  {
    cs := [];
    if t != [] {
      var rest := PrintedIsJson(t[1..]);
      PrintedByte(t[0]);
      PrintedMeans(t[0], rest);
      cs := [Printed(t[0])] + rest;
      assert cs[1..] == rest;
      assert [t[0]] + t[1..] == t;
      hide EscapeByte, Printed, CharText, Meaning;
    }
  }

  lemma PrintedMeans(b: byte, rest: seq<JsonChar>)
    requires b != 0 && AllChars(rest) && IsChar(Printed(b))
    ensures Meaning([Printed(b)] + rest) == Prefixed([b], Meaning(rest))
  {
    assert ([Printed(b)] + rest)[1..] == rest;
    EncodeAsciiOctet(b);
  }

  lemma EncodeAsciiOctet(b: byte)
    ensures b < 32 ==> Encode(b) == [b]
  {
  }
}
