/** The JSON decoder of unicode escapes against the UTF-16 converter of the UTF-8 library. */
module JsonUnicode {
  import opened Bytes
  import opened Utf8Core
  import C = Utf8Checked
  import opened Utf16
  import opened JsonTree
  import opened JsonParse

  /** One UTF-16 code unit written as a JSON escape (section 7 of RFC 8259). */
  function UnitEscape(x: uint16): (r: seq<byte>)
    ensures |r| == 6
  {
    [BACKSLASH, 117, HexDigit(x / 0x1000), HexDigit(x / 0x100 % 16), HexDigit(x / 16 % 16), HexDigit(x % 16)]
  }

  function UnitEscapes(u: seq<uint16>): seq<byte> {
    if u == [] then [] else UnitEscape(u[0]) + UnitEscapes(u[1..])
  }

  lemma HexOfDigit(n: nat)
    requires n < 16
    ensures HexValue(HexDigit(n)) == Some(n)
  {
  }

  /** `parse_hex4` reads the unit back. */
  lemma UnitReadsBack(x: uint16)
    ensures Hex4(UnitEscape(x)[2..6]) == x
  {
    HexOfDigit(x / 0x1000);
    HexOfDigit(x / 0x100 % 16);
    HexOfDigit(x / 16 % 16);
    HexOfDigit(x % 16);
    NibblesJoin(x);
    hide HexDigit, HexValue, Nibbles;
  }

  /** The two libraries compute the same code point from a surrogate pair. */
  lemma SamePair(lead: int, trail: int)
    requires 0xd800 <= lead <= 0xdbff && 0xdc00 <= trail <= 0xdfff
    ensures 0x10000 + (lead % 0x400) * 0x400 + trail % 0x400 == FromPair(lead, trail)
  {
    FromPairIs(lead, trail);
    TenBits(0x36, lead - 0xd800);
    TenBits(0x37, trail - 0xdc00);
    hide FromPair;
  }

  /** What the escape decoder makes of the head of escaped code units. */
  ghost predicate HeadAgrees(u: seq<uint16>, l: Literal)
    requires u != []
  {
    match Read16(u)
    case Threw(_) => l == BadLiteral
    case Done((cp, n)) => l == Literal(cp, 6 * n)
  }

  lemma LoneUnit(u: seq<uint16>, t: seq<byte>, n: nat)
    requires |u| == 1 && n == 6 < |t| && t[..6] == UnitEscape(u[0])
    ensures HeadAgrees(u, Utf16Literal(t, n))
  {
    UnitReadsBack(u[0]);
    assert t[2..6] == t[..6][2..6];
    hide Hex4, UnitEscape;
  }

  lemma TwoUnits(u: seq<uint16>, t: seq<byte>, n: nat)
    requires |u| >= 2 && 12 <= n < |t| && t[..6] == UnitEscape(u[0]) && t[6..12] == UnitEscape(u[1])
    ensures HeadAgrees(u, Utf16Literal(t, n))
  {
    UnitReadsBack(u[0]);
    UnitReadsBack(u[1]);
    assert t[2..6] == t[..6][2..6] && t[8..12] == t[6..12][2..6];
    assert t[6] == t[6..12][0] && t[7] == t[6..12][1];
    if IsLeadSurrogate(u[0]) && IsTrailSurrogate(u[1]) {
      SamePair(u[0], u[1]);
    }
    hide Hex4, FromPair;
  }

  lemma {:induction false} EscapesLength(u: seq<uint16>)
    ensures |UnitEscapes(u)| == 6 * |u|
  {
    if u != [] {
      EscapesLength(u[1..]);
    }
  }

  function AsOption(r: C.Result<seq<byte>>): Option<seq<byte>> {
    match r
    case Done(b) => Some(b)
    case Threw(_) => None
  }

  /** Cutting off the first `k` units. */
  lemma {:induction false} EscapesSplit(u: seq<uint16>, k: nat)
    requires k <= |u|
    ensures UnitEscapes(u) == UnitEscapes(u[..k]) + UnitEscapes(u[k..])
  {
    if k == 0 {
      assert u[0..] == u;
    } else {
      EscapesSplit(u[1..], k - 1);
      assert u[..k][1..] == u[1..][..k - 1] && u[1..][k - 1..] == u[k..];
      Assoc(UnitEscape(u[0]), UnitEscapes(u[..k][1..]), UnitEscapes(u[k..]));
    }
  }

  /**
   * On every sequence of code units, well-formed or not, decoding their escapes gives the octets that
   * `utf16to8` writes, and fails exactly where it throws.
   */
  lemma {:induction false} EscapesAreUtf16(u: seq<uint16>, s: seq<byte>)
    requires s != []
    ensures |UnitEscapes(u)| == 6 * |u|
    ensures Decode(UnitEscapes(u) + s, 6 * |u|) == AsOption(Utf16To8(u))
    decreases |u|
  {
    EscapesLength(u);
    var t := UnitEscapes(u) + s;
    if u == [] {
      assert t == s;
    } else {
      HeadOfEscapes(u, s);
      assert t[0] == BACKSLASH && t[1] == 117 && SimpleEscape(117) == None;
      if Read16(u).Done? {
        var (cp, n) := Read16(u).value;
        UnitsInvertRead16(u);
        EscapesAreUtf16(u[n..], s);
        RestOfEscapes(u, n, s);
        hide Utf16Literal, Read16, Encode, UnitEscapes, SimpleEscape, IsCodePointValid;
      }
    }
  }

  lemma HeadOfEscapes(u: seq<uint16>, s: seq<byte>)
    requires u != [] && s != []
    ensures |UnitEscapes(u)| == 6 * |u| && (UnitEscapes(u) + s)[..6] == UnitEscape(u[0])
    ensures HeadAgrees(u, Utf16Literal(UnitEscapes(u) + s, 6 * |u|))
  {
    hide UnitEscape, Utf16Literal, HeadAgrees;
    EscapesLength(u);
    var t, rest := UnitEscapes(u) + s, UnitEscapes(u[1..]);
    Assoc(UnitEscape(u[0]), rest, s);
    CutConcat(UnitEscape(u[0]), rest + s);
    if |u| == 1 {
      LoneUnit(u, t, 6);
    } else {
      var more := UnitEscapes(u[1..][1..]);
      Assoc(UnitEscape(u[1]), more, s);
      CutConcat(UnitEscape(u[1]), more + s);
      assert t[6..12] == t[6..][..6];
      TwoUnits(u, t, 6 * |u|);
    }
  }

  lemma RestOfEscapes(u: seq<uint16>, n: nat, s: seq<byte>)
    requires n <= |u|
    ensures |UnitEscapes(u)| == 6 * |u| && (UnitEscapes(u) + s)[6 * n..] == UnitEscapes(u[n..]) + s
  {
    EscapesLength(u);
    EscapesLength(u[..n]);
    EscapesSplit(u, n);
    Assoc(UnitEscapes(u[..n]), UnitEscapes(u[n..]), s);
    CutConcat(UnitEscapes(u[..n]), UnitEscapes(u[n..]) + s);
    hide UnitEscapes;
  }
}
