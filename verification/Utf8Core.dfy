/** The decoder core of the UTF-8 library: lead octets, trail octets and `validate_next`. */
module Utf8Core {
  import opened Bytes

  /** A 32-bit unsigned value, as the library's `uint32_t`. */
  type uint32 = x: int | 0 <= x < 0x1_0000_0000

  datatype UtfError =
    NotEnoughRoom | InvalidLead | IncompleteSequence | OverlongSequence | InvalidCodePoint

  /** Outcome of decoding at the head of some text: a code point and the octets it took, or an error. */
  datatype Decoded = Ok(cp: uint32, len: nat) | Error(err: UtfError)

  const CODE_POINT_MAX: uint32 := 0x10ffff
  const LEAD_SURROGATE_MIN: uint32 := 0xd800
  const LEAD_SURROGATE_MAX: uint32 := 0xdbff
  const TRAIL_SURROGATE_MIN: uint32 := 0xdc00
  const TRAIL_SURROGATE_MAX: uint32 := 0xdfff

  // Shifts and low masks on unsigned values are written as the divisions and remainders they are;
  // module MachineBits shows that this is what the machine operators compute.

  predicate IsTrail(b: byte) { b / 64 == 2 }

  predicate IsAscii(b: byte) { b < 0x80 }

  predicate IsSurrogate(cp: uint32) { LEAD_SURROGATE_MIN <= cp <= TRAIL_SURROGATE_MAX }

  predicate IsCodePointValid(cp: uint32) { cp <= CODE_POINT_MAX && !IsSurrogate(cp) }

  function SequenceLength(lead: byte): nat {
    if lead < 0x80 then 1
    else if lead / 32 == 0x6 then 2
    else if lead / 16 == 0xe then 3
    else if lead / 8 == 0x1e then 4
    else 0
  }

  predicate IsOverlong(cp: uint32, length: nat) {
    if cp < 0x80 then length != 1
    else if cp < 0x800 then length != 2
    else if cp < 0x10000 then length != 3
    else false
  }

  /** The error of `increase_safely` when the iterator moves from `it` to `it + 1`, if any. */
  function IncreaseError(s: seq<byte>, it: nat): Option<UtfError>
    requires it < |s|
  {
    if it + 1 == |s| then Some(NotEnoughRoom)
    else if !IsTrail(s[it + 1]) then Some(IncompleteSequence)
    else None
  }

  // The code point the decoder assembles from two, three and four octets.

  function CodePoint2(a: int, b: int): uint32 {
    (a * 0x40) % 0x800 + b % 0x40
  }

  function CodePoint3(a: int, b: int, c: int): uint32 {
    (a * 0x1000) % 0x10000 + (b * 0x40) % 0x1000 + c % 0x40
  }

  function CodePoint4(a: int, b: int, c: int, d: int): uint32 {
    (a * 0x40000) % 0x200000 + (b * 0x1000) % 0x40000 + (c * 0x40) % 0x1000 + d % 0x40
  }

  function GetSequence2(s: seq<byte>): Decoded
    requires |s| > 0
  {
    var e1 := IncreaseError(s, 0);
    if e1.Some? then Error(e1.value) else
    Ok(CodePoint2(s[0], s[1]), 2)
  }

  function GetSequence3(s: seq<byte>): Decoded
    requires |s| > 0
  {
    var e1 := IncreaseError(s, 0);
    if e1.Some? then Error(e1.value) else
    var e2 := IncreaseError(s, 1);
    if e2.Some? then Error(e2.value) else
    Ok(CodePoint3(s[0], s[1], s[2]), 3)
  }

  function GetSequence4(s: seq<byte>): Decoded
    requires |s| > 0
  {
    var e1 := IncreaseError(s, 0);
    if e1.Some? then Error(e1.value) else
    var e2 := IncreaseError(s, 1);
    if e2.Some? then Error(e2.value) else
    var e3 := IncreaseError(s, 2);
    if e3.Some? then Error(e3.value) else
    Ok(CodePoint4(s[0], s[1], s[2], s[3]), 4)
  }

  function GetSequence(s: seq<byte>): Decoded
    requires |s| > 0
  {
    match SequenceLength(s[0])
    case 0 => Error(InvalidLead)
    case 1 => Ok(s[0], 1)
    case 2 => GetSequence2(s)
    case 3 => GetSequence3(s)
    case _ => GetSequence4(s)
  }

  /** `validate_next` at the head of `s`; the iterator moves by `len` on success and stays put on error. */
  function ValidateNext(s: seq<byte>): (r: Decoded)
    requires |s| > 0
    ensures r.Ok? ==> 1 <= r.len <= |s| && r.len <= 4 && IsCodePointValid(r.cp)
  {
    var d := GetSequence(s);
    if d.Error? then d
    else if !IsCodePointValid(d.cp) then Error(InvalidCodePoint)
    else if IsOverlong(d.cp, d.len) then Error(OverlongSequence)
    else d
  }

  // ---------------------------------------------------------------------------------------------
  // Section 4 of RFC 3629: the octet sequences that are UTF-8 characters, as the ABNF lists them.

  predicate Tail(b: byte) { 0x80 <= b <= 0xbf }

  predicate Rfc1(s: seq<byte>) { |s| >= 1 && s[0] <= 0x7f }

  predicate Rfc2(s: seq<byte>) { |s| >= 2 && 0xc2 <= s[0] <= 0xdf && Tail(s[1]) }

  predicate Rfc3(s: seq<byte>) {
    && |s| >= 3
    && (|| (s[0] == 0xe0 && 0xa0 <= s[1] <= 0xbf)
        || (0xe1 <= s[0] <= 0xec && Tail(s[1]))
        || (s[0] == 0xed && 0x80 <= s[1] <= 0x9f)
        || (0xee <= s[0] <= 0xef && Tail(s[1])))
    && Tail(s[2])
  }

  predicate Rfc4(s: seq<byte>) {
    && |s| >= 4
    && (|| (s[0] == 0xf0 && 0x90 <= s[1] <= 0xbf)
        || (0xf1 <= s[0] <= 0xf3 && Tail(s[1]))
        || (s[0] == 0xf4 && 0x80 <= s[1] <= 0x8f))
    && Tail(s[2]) && Tail(s[3])
  }

  /** Length of the RFC 3629 character at the head of `s`, 0 when there is none. */
  function RfcLength(s: seq<byte>): nat {
    if Rfc1(s) then 1 else if Rfc2(s) then 2 else if Rfc3(s) then 3 else if Rfc4(s) then 4 else 0
  }

  /** The octets `append` writes for a code point. */
  function Encode(cp: uint32): (r: seq<byte>)
    requires IsCodePointValid(cp)
    ensures 1 <= |r| <= 4
  {
    if cp < 0x80 then [cp]
    else if cp < 0x800 then [cp / 0x40 + 0xc0, cp % 0x40 + 0x80]
    else if cp < 0x10000 then [cp / 0x1000 + 0xe0, (cp / 0x40) % 0x40 + 0x80, cp % 0x40 + 0x80]
    else [cp / 0x40000 + 0xf0, (cp / 0x1000) % 0x40 + 0x80, (cp / 0x40) % 0x40 + 0x80, cp % 0x40 + 0x80]
  }

  lemma OnlyTrailsFollow(s: seq<byte>)
    requires |s| > 0 && ValidateNext(s).Ok?
    ensures !IsTrail(s[0]) && forall i :: 1 <= i < ValidateNext(s).len ==> IsTrail(s[i])
  {
  }

  // The masks only drop the marker bits of the octets.

  lemma CodePoint2Linear(a: int, b: int)
    requires 0xc0 <= a <= 0xdf && 0x80 <= b <= 0xbf
    ensures CodePoint2(a, b) == (a - 0xc0) * 0x40 + (b - 0x80)
  {
  }

  lemma CodePoint3Linear(a: int, b: int, c: int)
    requires 0xe0 <= a <= 0xef && 0x80 <= b <= 0xbf && 0x80 <= c <= 0xbf
    ensures CodePoint3(a, b, c) == (a - 0xe0) * 0x1000 + (b - 0x80) * 0x40 + (c - 0x80)
  {
  }

  lemma CodePoint4Linear(a: int, b: int, c: int, d: int)
    requires 0xf0 <= a <= 0xf7 && 0x80 <= b <= 0xbf && 0x80 <= c <= 0xbf && 0x80 <= d <= 0xbf
    ensures CodePoint4(a, b, c, d) == (a - 0xf0) * 0x40000 + (b - 0x80) * 0x1000 + (c - 0x80) * 0x40 + (d - 0x80)
  {
  }

  /** `validate_next` accepts exactly the characters of section 4 of RFC 3629. */
  lemma ValidateNextIsRfc3629(s: seq<byte>)
    requires |s| > 0
    ensures ValidateNext(s).Ok? <==> RfcLength(s) != 0
    ensures ValidateNext(s).Ok? ==> ValidateNext(s).len == RfcLength(s)
  {
    if SequenceLength(s[0]) == 2 && |s| >= 2 && IsTrail(s[1]) {
      CodePoint2Linear(s[0], s[1]);
    } else if SequenceLength(s[0]) == 3 && |s| >= 3 && IsTrail(s[1]) && IsTrail(s[2]) {
      CodePoint3Linear(s[0], s[1], s[2]);
    } else if SequenceLength(s[0]) == 4 && |s| >= 4 && IsTrail(s[1]) && IsTrail(s[2]) && IsTrail(s[3]) {
      CodePoint4Linear(s[0], s[1], s[2], s[3]);
    }
  }

  lemma Encode2(a: int, b: int)
    requires 0xc2 <= a <= 0xdf && 0x80 <= b <= 0xbf
    ensures Encode((a - 0xc0) * 0x40 + (b - 0x80)) == [a, b]
  {
  }

  lemma Encode3(a: int, b: int, c: int)
    requires 0xe0 <= a <= 0xef && 0x80 <= b <= 0xbf && 0x80 <= c <= 0xbf
    requires var cp := (a - 0xe0) * 0x1000 + (b - 0x80) * 0x40 + (c - 0x80);
             0x800 <= cp && !IsSurrogate(cp)
    ensures Encode((a - 0xe0) * 0x1000 + (b - 0x80) * 0x40 + (c - 0x80)) == [a, b, c]
  {
    Digits(0, a - 0xe0, b - 0x80, c - 0x80);
  }

  /** Base-64 digits of a four-octet code point. */
  lemma Digits(a: int, b: int, c: int, d: int)
    requires 0 <= b < 0x40 && 0 <= c < 0x40 && 0 <= d < 0x40
    ensures var cp := a * 0x40000 + b * 0x1000 + c * 0x40 + d;
            && cp % 0x40 == d
            && cp / 0x40 == a * 0x1000 + b * 0x40 + c
            && cp / 0x1000 == a * 0x40 + b
            && cp / 0x40000 == a
            && cp / 0x40 % 0x40 == c && cp / 0x1000 % 0x40 == b
  {
    Digit(a * 0x1000 + b * 0x40 + c, d);
    Digit(a * 0x40 + b, c);
    Digit(a, b);
  }

  lemma Digit(q: int, r: int)
    requires 0 <= r < 0x40
    ensures (q * 0x40 + r) / 0x40 == q && (q * 0x40 + r) % 0x40 == r
  {
  }

  lemma Encode4(a: int, b: int, c: int, d: int)
    requires 0xf0 <= a <= 0xf7 && 0x80 <= b <= 0xbf && 0x80 <= c <= 0xbf && 0x80 <= d <= 0xbf
    requires 0x10000 <= (a - 0xf0) * 0x40000 + (b - 0x80) * 0x1000 + (c - 0x80) * 0x40 + (d - 0x80) <= 0x10ffff
    ensures Encode((a - 0xf0) * 0x40000 + (b - 0x80) * 0x1000 + (c - 0x80) * 0x40 + (d - 0x80)) == [a, b, c, d]
  {
    Digits(a - 0xf0, b - 0x80, c - 0x80, d - 0x80);
  }

  /** `append` writes back the octets that `validate_next` consumed. */
  lemma EncodeInvertsValidateNext(s: seq<byte>)
    requires |s| > 0 && ValidateNext(s).Ok?
    ensures Encode(ValidateNext(s).cp) == s[..ValidateNext(s).len]
  {
    if SequenceLength(s[0]) == 2 {
      CodePoint2Linear(s[0], s[1]);
      Encode2(s[0], s[1]);
    } else if SequenceLength(s[0]) == 3 {
      EncodeInverts3(s);
    } else if SequenceLength(s[0]) == 4 {
      EncodeInverts4(s);
    }
  }

  lemma EncodeInverts3(s: seq<byte>)
    requires |s| > 0 && SequenceLength(s[0]) == 3 && ValidateNext(s).Ok?
    ensures Encode(ValidateNext(s).cp) == s[..3]
  {
    CodePoint3Linear(s[0], s[1], s[2]);
    Encode3(s[0], s[1], s[2]);
  }

  lemma EncodeInverts4(s: seq<byte>)
    requires |s| > 0 && SequenceLength(s[0]) == 4 && ValidateNext(s).Ok?
    ensures Encode(ValidateNext(s).cp) == s[..4]
  {
    CodePoint4Linear(s[0], s[1], s[2], s[3]);
    Encode4(s[0], s[1], s[2], s[3]);
  }

  lemma Split2(cp: int)
    requires 0x80 <= cp < 0x800
    ensures var a, b := cp / 0x40 + 0xc0, cp % 0x40 + 0x80;
            && 0xc2 <= a <= 0xdf && 0x80 <= b <= 0xbf && CodePoint2(a, b) == cp
  {
  }

  lemma Split3(cp: int)
    requires 0x800 <= cp < 0x10000
    ensures var a, b, c := cp / 0x1000 + 0xe0, (cp / 0x40) % 0x40 + 0x80, cp % 0x40 + 0x80;
            && 0xe0 <= a <= 0xef && 0x80 <= b <= 0xbf && 0x80 <= c <= 0xbf && CodePoint3(a, b, c) == cp
  {
    CodePoint3Linear(cp / 0x1000 + 0xe0, (cp / 0x40) % 0x40 + 0x80, cp % 0x40 + 0x80);
  }

  lemma Split4(cp: int)
    requires 0x10000 <= cp <= 0x10ffff
    ensures var a, b, c, d :=
      cp / 0x40000 + 0xf0, (cp / 0x1000) % 0x40 + 0x80, (cp / 0x40) % 0x40 + 0x80, cp % 0x40 + 0x80;
            && 0xf0 <= a <= 0xf7 && 0x80 <= b <= 0xbf && 0x80 <= c <= 0xbf && 0x80 <= d <= 0xbf
            && CodePoint4(a, b, c, d) == cp
  {
    var a, b, c, d := cp / 0x40000, (cp / 0x1000) % 0x40, (cp / 0x40) % 0x40, cp % 0x40;
    assert cp / 0x1000 == (cp / 0x40) / 0x40 && cp / 0x40000 == (cp / 0x1000) / 0x40;
    CodePoint4Linear(a + 0xf0, b + 0x80, c + 0x80, d + 0x80);
  }

  lemma Accepts2(a: byte, b: byte, cp: uint32, rest: seq<byte>)
    requires 0xc2 <= a <= 0xdf && 0x80 <= b <= 0xbf && CodePoint2(a, b) == cp && 0x80 <= cp < 0x800
    ensures ValidateNext([a, b] + rest) == Ok(cp, 2)
  {
    hide CodePoint2;
  }

  lemma Accepts3(a: byte, b: byte, c: byte, cp: uint32, rest: seq<byte>)
    requires 0xe0 <= a <= 0xef && 0x80 <= b <= 0xbf && 0x80 <= c <= 0xbf
    requires CodePoint3(a, b, c) == cp && 0x800 <= cp < 0x10000 && !IsSurrogate(cp)
    ensures ValidateNext([a, b, c] + rest) == Ok(cp, 3)
  {
    hide CodePoint3;
  }

  lemma Accepts4(a: byte, b: byte, c: byte, d: byte, cp: uint32, rest: seq<byte>)
    requires 0xf0 <= a <= 0xf7 && 0x80 <= b <= 0xbf && 0x80 <= c <= 0xbf && 0x80 <= d <= 0xbf
    requires CodePoint4(a, b, c, d) == cp && 0x10000 <= cp <= CODE_POINT_MAX
    ensures ValidateNext([a, b, c, d] + rest) == Ok(cp, 4)
  {
    hide CodePoint4;
  }

  /** Decoding undoes `append` for every valid code point, whatever follows. */
  lemma ValidateNextInvertsEncode(cp: uint32, rest: seq<byte>)
    requires IsCodePointValid(cp)
    ensures ValidateNext(Encode(cp) + rest) == Ok(cp, |Encode(cp)|)
  {
    if 0x80 <= cp < 0x800 {
      Split2(cp);
      Accepts2(cp / 0x40 + 0xc0, cp % 0x40 + 0x80, cp, rest);
      hide ValidateNext;
    } else if 0x800 <= cp < 0x10000 {
      Split3(cp);
      Accepts3(cp / 0x1000 + 0xe0, (cp / 0x40) % 0x40 + 0x80, cp % 0x40 + 0x80, cp, rest);
      hide ValidateNext;
    } else if 0x10000 <= cp {
      Split4(cp);
      Accepts4(cp / 0x40000 + 0xf0, (cp / 0x1000) % 0x40 + 0x80, (cp / 0x40) % 0x40 + 0x80, cp % 0x40 + 0x80, cp, rest);
      hide ValidateNext;
    }
  }
}
