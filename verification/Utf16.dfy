/** Conversions between UTF-8 and UTF-16. */
module Utf16 {
  import opened Bytes
  import opened Utf8Core
  import opened Utf8Checked
  import opened Utf8Stepping

  type uint16 = x: int | 0 <= x < 0x10000

  const LEAD_OFFSET: uint16 := 0xd800 - 0x10000 / 0x400

  /** Negative before it is stored, so it wraps modulo 2^32. */
  const SURROGATE_OFFSET: uint32 := (0x10000 - 0xd800 * 0x400 - 0xdc00) % 0x1_0000_0000

  predicate IsLeadSurrogate(u: uint32) { LEAD_SURROGATE_MIN <= u <= LEAD_SURROGATE_MAX }

  predicate IsTrailSurrogate(u: uint32) { TRAIL_SURROGATE_MIN <= u <= TRAIL_SURROGATE_MAX }

  /** Well-formed UTF-16 (section 2.2 of RFC 2781): surrogates come in lead/trail pairs only. */
  predicate WellFormed16(u: seq<uint16>) {
    || u == []
    || (!IsSurrogate(u[0]) && WellFormed16(u[1..]))
    || (|u| >= 2 && IsLeadSurrogate(u[0]) && IsTrailSurrogate(u[1]) && WellFormed16(u[2..]))
  }

  function PairOf(cp: int): (uint16, uint16) {
    ((cp / 0x400 + LEAD_OFFSET) % 0x10000, (cp % 0x400 + 0xdc00) % 0x10000)
  }

  function FromPair(lead: int, trail: int): uint32 {
    ((lead * 0x400) % 0x1_0000_0000 + trail + SURROGATE_OFFSET) % 0x1_0000_0000
  }

  /** The code units `utf8to16` writes for one code point. */
  function Units(cp: uint32): seq<uint16>
    requires IsCodePointValid(cp)
  {
    if cp > 0xffff then [PairOf(cp).0, PairOf(cp).1] else [cp]
  }

  function Prepend16(a: seq<uint16>, r: Result<seq<uint16>>): Result<seq<uint16>> {
    match r
    case Done(b) => Done(a + b)
    case Threw(_) => r
  }

  function Utf8To16(s: seq<byte>): Result<seq<uint16>> {
    if s == [] then Done([])
    else match ValidateNext(s)
      case Ok(cp, len) => Prepend16(Units(cp), Utf8To16(s[len..]))
      case Error(NotEnoughRoom) => Threw(NotEnoughRoomThrown)
      case Error(InvalidCodePoint) => Threw(InvalidCodePointThrown(0))
      case Error(_) => Threw(InvalidUtf8Thrown)
  }

  /** The code point `utf16to8` reads at the head, and how many code units it takes. */
  function Read16(u: seq<uint16>): Result<(uint32, nat)>
    requires |u| > 0
  {
    if IsLeadSurrogate(u[0]) then
      if |u| == 1 || !IsTrailSurrogate(u[1]) then Threw(InvalidUtf16Thrown)
      else Done((FromPair(u[0], u[1]), 2))
    else if IsTrailSurrogate(u[0]) then Threw(InvalidUtf16Thrown)
    else Done((u[0], 1))
  }

  function Utf16To8(u: seq<uint16>): Result<seq<byte>> {
    if u == [] then Done([])
    else match Read16(u)
      case Threw(e) => Threw(e)
      case Done((cp, n)) =>
        if IsCodePointValid(cp) then Prepend(Encode(cp), Utf16To8(u[n..]))
        else Threw(InvalidCodePointThrown(cp))
  }

  // ---------------------------------------------------------------------------------------------

  lemma PairRoundTrip(cp: int)
    requires 0x10000 <= cp <= 0x10ffff
    ensures IsLeadSurrogate(PairOf(cp).0) && IsTrailSurrogate(PairOf(cp).1)
    ensures FromPair(PairOf(cp).0, PairOf(cp).1) == cp
  {
  }

  lemma PairFromSurrogates(lead: int, trail: int)
    requires 0xd800 <= lead <= 0xdbff && 0xdc00 <= trail <= 0xdfff
    ensures 0x10000 <= FromPair(lead, trail) <= 0x10ffff
    ensures PairOf(FromPair(lead, trail)) == (lead, trail)
  {
    FromPairIs(lead, trail);
    TenBits(0x40 + lead - 0xd800, trail - 0xdc00);
    hide FromPair;
  }

  /** The wrapped offset amounts to a plain sum. */
  lemma FromPairIs(lead: int, trail: int)
    requires 0xd800 <= lead <= 0xdbff && 0xdc00 <= trail <= 0xdfff
    ensures FromPair(lead, trail) == (0x40 + lead - 0xd800) * 0x400 + (trail - 0xdc00)
  {
    assert (lead * 0x400) % 0x1_0000_0000 == lead * 0x400;
  }

  lemma TenBits(q: int, r: int)
    requires 0 <= r < 0x400
    ensures (q * 0x400 + r) / 0x400 == q && (q * 0x400 + r) % 0x400 == r
  {
  }

  lemma Read16InvertsUnits(cp: uint32, rest: seq<uint16>)
    requires IsCodePointValid(cp)
    ensures Read16(Units(cp) + rest) == Done((cp, |Units(cp)|))
  {
    hide PairOf, FromPair;
    if cp > 0xffff { PairRoundTrip(cp); }
  }

  lemma UnitsInvertRead16(u: seq<uint16>)
    requires |u| > 0 && Read16(u).Done?
    ensures var (cp, n) := Read16(u).value; n <= |u| && IsCodePointValid(cp) && Units(cp) == u[..n]
  {
    hide PairOf, FromPair;
    if IsLeadSurrogate(u[0]) { PairFromSurrogates(u[0], u[1]); }
  }

  /** UTF-8 to UTF-16 and back is the identity, and it succeeds exactly on well-formed UTF-8. */
  lemma {:induction false} Utf8RoundTrip(s: seq<byte>)
    ensures Utf8To16(s).Done? <==> WellFormed(s)
    ensures WellFormed(s) ==> WellFormed16(Utf8To16(s).value) && Utf16To8(Utf8To16(s).value) == Done(s)
    decreases |s|
  {
    hide ValidateNext, Units, Encode, Read16, RfcLength;
    if s != [] {
      ValidateNextIsRfc3629(s);
      var d := ValidateNext(s);
      if d.Ok? {
        var rest := s[d.len..];
        Utf8RoundTrip(rest);
        if WellFormed(rest) {
          EncodeInvertsValidateNext(s);
          ConvertOne(d.cp, Utf8To16(rest).value, rest);
          assert s == s[..d.len] + rest;
        }
      }
    }
  }

  lemma ConvertOne(cp: uint32, u: seq<uint16>, s: seq<byte>)
    requires IsCodePointValid(cp) && WellFormed16(u) && Utf16To8(u) == Done(s)
    ensures WellFormed16(Units(cp) + u) && Utf16To8(Units(cp) + u) == Done(Encode(cp) + s)
  {
    hide Encode, FromPair;
    Read16InvertsUnits(cp, u);
    CutConcat(Units(cp), u);
    if cp > 0xffff { PairRoundTrip(cp); }
    hide PairOf;
  }

  /** UTF-16 to UTF-8 and back is the identity, and it succeeds exactly on well-formed UTF-16. */
  lemma {:induction false} Utf16RoundTrip(u: seq<uint16>)
    ensures Utf16To8(u).Done? <==> WellFormed16(u)
    ensures WellFormed16(u) ==> WellFormed(Utf16To8(u).value) && Utf8To16(Utf16To8(u).value) == Done(u)
    decreases |u|
  {
    hide ValidateNext, Units, Encode, RfcLength, FromPair;
    if u != [] && Read16(u).Done? {
      var (cp, n) := Read16(u).value;
      UnitsInvertRead16(u);
      var rest := u[n..];
      Utf16RoundTrip(rest);
      if WellFormed16(rest) {
        var s := Utf16To8(rest).value;
        ConvertBack(cp, s, rest);
        assert u == u[..n] + rest;
      }
    }
  }

  lemma ConvertBack(cp: uint32, s: seq<byte>, u: seq<uint16>)
    requires IsCodePointValid(cp) && WellFormed(s) && Utf8To16(s) == Done(u)
    ensures WellFormed(Encode(cp) + s) && Utf8To16(Encode(cp) + s) == Done(Units(cp) + u)
  {
    hide ValidateNext, Units, Encode, RfcLength;
    ValidateNextInvertsEncode(cp, s);
    CutConcat(Encode(cp), s);
    EncodedIsText(cp);
    TextConcat(Encode(cp), s);
  }

  // ---------------------------------------------------------------------------------------------
  // The loops of the library: the checked ones, and the unchecked ones for well-formed text.

  method RunUtf8To16(s: seq<byte>) returns (r: Result<seq<uint16>>)
    ensures r == Utf8To16(s)
  {
    hide ValidateNext, Units;
    var out: seq<uint16> := [];
    var start := 0;
    Prepend16Nothing(Utf8To16(s));
    assert s[start..] == s;
    while start != |s|
      invariant start <= |s|
      invariant Prepend16(out, Utf8To16(s[start..])) == Utf8To16(s)
    {
      match ValidateNext(s[start..]) {
        case Ok(cp, len) =>
          Prepend16Step(out, Units(cp), Utf8To16(s[start..][len..]));
          assert s[start..][len..] == s[start + len..];
          out := out + Units(cp);
          start := start + len;
        case Error(NotEnoughRoom) => return Threw(NotEnoughRoomThrown);
        case Error(InvalidCodePoint) => return Threw(InvalidCodePointThrown(0));
        case Error(_) => return Threw(InvalidUtf8Thrown);
      }
    }
    assert s[start..] == [] && out + [] == out;
    return Done(out);
  }

  lemma Prepend16Nothing(r: Result<seq<uint16>>)
    ensures Prepend16([], r) == r
  {
    if r.Done? { assert [] + r.value == r.value; }
  }

  lemma Prepend16Step(a: seq<uint16>, b: seq<uint16>, r: Result<seq<uint16>>)
    ensures Prepend16(a, Prepend16(b, r)) == Prepend16(a + b, r)
  {
    if r.Done? { Assoc(a, b, r.value); }
  }

  lemma PrependStep(a: seq<byte>, b: seq<byte>, r: Result<seq<byte>>)
    ensures Prepend(a, Prepend(b, r)) == Prepend(a + b, r)
  {
    if r.Done? { Assoc(a, b, r.value); }
  }

  method RunUtf16To8(u: seq<uint16>) returns (r: Result<seq<byte>>)
    ensures r == Utf16To8(u)
  {
    hide Encode, FromPair;
    var out: seq<byte> := [];
    var start := 0;
    PrependNothing(Utf16To8(u));
    assert u[start..] == u;
    while start != |u|
      invariant start <= |u|
      invariant Prepend(out, Utf16To8(u[start..])) == Utf16To8(u)
    {
      ghost var todo := u[start..];
      var cp: uint32 := u[start];
      start := start + 1;
      if IsLeadSurrogate(cp) {
        if start == |u| {
          return Threw(InvalidUtf16Thrown);
        }
        var trail := u[start];
        start := start + 1;
        if !IsTrailSurrogate(trail) {
          return Threw(InvalidUtf16Thrown);
        }
        cp := FromPair(cp, trail);
      } else if IsTrailSurrogate(cp) {
        return Threw(InvalidUtf16Thrown);
      }
      if !IsCodePointValid(cp) {
        return Threw(InvalidCodePointThrown(cp));
      }
      assert u[start..] == todo[Read16(todo).value.1..];
      PrependStep(out, Encode(cp), Utf16To8(u[start..]));
      out := out + Encode(cp);
    }
    assert u[start..] == [] && out + [] == out;
    return Done(out);
  }

  /** The unchecked loop trusts every lead surrogate to be followed by its trail. */
  method UncheckedUtf16To8(u: seq<uint16>) returns (out: seq<byte>)
    requires WellFormed16(u)
    ensures Utf16To8(u) == Done(out)
  {
    hide Encode, FromPair;
    out := [];
    var start := 0;
    PrependNothing(Utf16To8(u));
    assert u[start..] == u;
    while start != |u|
      invariant start <= |u| && WellFormed16(u[start..])
      invariant Prepend(out, Utf16To8(u[start..])) == Utf16To8(u)
    {
      ghost var todo := u[start..];
      UnitsInvertRead16(todo);
      var cp: uint32 := u[start];
      start := start + 1;
      if IsLeadSurrogate(cp) {
        cp := FromPair(cp, u[start]);
        start := start + 1;
      }
      assert u[start..] == todo[Read16(todo).value.1..];
      PrependStep(out, Encode(cp), Utf16To8(u[start..]));
      out := out + Encode(cp);
    }
    assert u[start..] == [] && out + [] == out;
  }

  /** The unchecked loop steps with `unchecked::next`. */
  method UncheckedUtf8To16(s: seq<byte>) returns (out: seq<uint16>)
    requires WellFormed(s)
    ensures Utf8To16(s) == Done(out)
  {
    hide ValidateNext, Units, UncheckedNext, RfcLength;
    out := [];
    var start := 0;
    Prepend16Nothing(Utf8To16(s));
    assert s[start..] == s;
    while start < |s|
      invariant start <= |s| && WellFormed(s[start..])
      invariant Prepend16(out, Utf8To16(s[start..])) == Utf8To16(s)
    {
      ghost var todo := s[start..];
      ValidateNextIsRfc3629(todo);
      UncheckedNextAgrees(s, start);
      var next := UncheckedNext(s, start);
      start := next.it;
      assert s[start..] == todo[ValidateNext(todo).len..];
      Prepend16Step(out, Units(next.cp), Utf8To16(s[start..]));
      out := out + Units(next.cp);
    }
    assert s[start..] == [] && out + [] == out;
  }
}
