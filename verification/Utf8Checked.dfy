/** The checked UTF-8 API: validation, repair, stepping forwards and backwards. */
module Utf8Checked {
  import opened Bytes
  import opened Utf8Core

  datatype Exception = NotEnoughRoomThrown | InvalidUtf8Thrown | InvalidCodePointThrown(cp: uint32) | InvalidUtf16Thrown

  datatype Result<+T> = Done(value: T) | Threw(exception: Exception)

  /** Well-formed UTF-8 text: a run of RFC 3629 characters. */
  predicate WellFormed(s: seq<byte>) {
    s == [] || (RfcLength(s) != 0 && WellFormed(s[RfcLength(s)..]))
  }

  // ---------------------------------------------------------------------------------------------
  // Decoding looks only at the octets it consumes.

  lemma RfcLengthLocal(s: seq<byte>, rest: seq<byte>)
    requires RfcLength(s) != 0
    ensures RfcLength(s + rest) == RfcLength(s) <= |s|
  {
  }

  lemma RfcLengthPrefix(s: seq<byte>)
    requires RfcLength(s) != 0
    ensures RfcLength(s[..RfcLength(s)]) == RfcLength(s) <= |s|
  {
  }

  lemma {:induction false} TextConcat(a: seq<byte>, b: seq<byte>)
    requires WellFormed(a) && WellFormed(b)
    ensures WellFormed(a + b)
    decreases |a|
  {
    if a == [] {
      assert a + b == b;
    } else {
      RfcLengthLocal(a, b);
      TextConcat(a[RfcLength(a)..], b);
      assert (a + b)[RfcLength(a)..] == a[RfcLength(a)..] + b;
    }
  }

  lemma CharacterIsText(s: seq<byte>)
    requires |s| > 0 && ValidateNext(s).Ok?
    ensures WellFormed(s[..ValidateNext(s).len])
  {
    ValidateNextIsRfc3629(s);
    RfcLengthPrefix(s);
    var c := s[..RfcLength(s)];
    assert c[RfcLength(c)..] == [];
  }

  lemma EncodedIsText(cp: uint32)
    requires IsCodePointValid(cp)
    ensures WellFormed(Encode(cp))
  {
    ValidateNextInvertsEncode(cp, []);
    assert Encode(cp) + [] == Encode(cp);
    CharacterIsText(Encode(cp));
    assert Encode(cp)[..|Encode(cp)|] == Encode(cp);
  }

  // ---------------------------------------------------------------------------------------------
  // find_invalid / is_valid

  /** Position of the first octet that does not start an RFC 3629 character; |s| when there is none. */
  method FindInvalid(s: seq<byte>) returns (r: nat)
    ensures r <= |s| && WellFormed(s[..r])
    ensures r < |s| ==> RfcLength(s[r..]) == 0
    ensures r == |s| <==> WellFormed(s)
  {
    hide ValidateNext, RfcLength;
    r := 0;
    while r != |s|
      invariant r <= |s| && WellFormed(s[..r])
      invariant WellFormed(s) <==> WellFormed(s[r..])
    {
      ValidateNextIsRfc3629(s[r..]);
      var d := ValidateNext(s[r..]);
      if d.Error? {
        return;
      }
      CharacterIsText(s[r..]);
      TextConcat(s[..r], s[r..][..d.len]);
      assert s[..r] + s[r..][..d.len] == s[..r + d.len];
      assert s[r..][d.len..] == s[r + d.len..];
      r := r + d.len;
    }
    assert s[..r] == s;
  }

  // ---------------------------------------------------------------------------------------------
  // replace_invalid

  /** Number of trail octets at the head of `s`. */
  function TrailCount(s: seq<byte>): (n: nat)
    ensures n <= |s|
  {
    if s != [] && IsTrail(s[0]) then 1 + TrailCount(s[1..]) else 0
  }

  function Prepend(a: seq<byte>, r: Result<seq<byte>>): Result<seq<byte>> {
    match r
    case Done(b) => Done(a + b)
    case Threw(_) => r
  }

  /** How many octets one round of `replace_invalid` consumes. */
  function UnitLength(s: seq<byte>): (n: nat)
    requires |s| > 0
    ensures 1 <= n <= |s|
  {
    match ValidateNext(s)
    case Ok(_, len) => len
    case Error(InvalidLead) => 1
    case Error(_) => 1 + TrailCount(s[1..])
  }

  /** What one round of `replace_invalid` writes. */
  function Unit(s: seq<byte>, mark: uint32): seq<byte>
    requires |s| > 0
  {
    match ValidateNext(s)
    case Ok(_, len) => s[..len]
    case Error(_) => if IsCodePointValid(mark) then Encode(mark) else []
  }

  function ReplaceInvalid(s: seq<byte>, mark: uint32): Result<seq<byte>> {
    if s == [] then Done([])
    else match ValidateNext(s)
      case Error(NotEnoughRoom) => Threw(NotEnoughRoomThrown)
      case d =>
        if d.Error? && !IsCodePointValid(mark) then Threw(InvalidCodePointThrown(mark))
        else Prepend(Unit(s, mark), ReplaceInvalid(s[UnitLength(s)..], mark))
  }

  method CopyOctets(s: seq<byte>, from: nat, to: nat, out: seq<byte>) returns (r: seq<byte>)
    requires from <= to <= |s|
    ensures r == out + s[from..to]
  {
    r := out;
    for it := from to to
      invariant r == out + s[from..it]
    {
      r := r + [s[it]];
    }
  }

  method SkipTrails(s: seq<byte>, start: nat) returns (r: nat)
    requires start <= |s|
    ensures r == start + TrailCount(s[start..])
  {
    r := start;
    while r != |s| && IsTrail(s[r])
      invariant start <= r <= |s|
      invariant r + TrailCount(s[r..]) == start + TrailCount(s[start..])
    {
      assert s[r..][1..] == s[r + 1..];
      r := r + 1;
    }
  }

  lemma RepairRound(out: seq<byte>, s: seq<byte>, mark: uint32)
    requires |s| > 0 && ValidateNext(s) != Error(NotEnoughRoom)
    requires ValidateNext(s).Ok? || IsCodePointValid(mark)
    ensures Prepend(out, ReplaceInvalid(s, mark)) ==
      Prepend(out + Unit(s, mark), ReplaceInvalid(s[UnitLength(s)..], mark))
  {
    hide ValidateNext, Unit, UnitLength;
    var r := ReplaceInvalid(s[UnitLength(s)..], mark);
    if r.Done? { Assoc(out, Unit(s, mark), r.value); }
  }

  lemma PrependNothing(r: Result<seq<byte>>)
    ensures Prepend([], r) == r
  {
    if r.Done? { assert [] + r.value == r.value; }
  }

  /** `replace_invalid`, octet by octet as the library does it. */
  method RunReplaceInvalid(s: seq<byte>, mark: uint32) returns (r: Result<seq<byte>>)
    ensures r == ReplaceInvalid(s, mark)
  {
    hide ValidateNext, Encode, TrailCount;
    var out: seq<byte> := [];
    var start := 0;
    assert s[start..] == s;
    PrependNothing(ReplaceInvalid(s, mark));
    while start != |s|
      invariant start <= |s|
      invariant Prepend(out, ReplaceInvalid(s[start..], mark)) == ReplaceInvalid(s, mark)
    {
      ghost var todo := s[start..];
      var sequenceStart := start;
      var d := ValidateNext(s[start..]);
      if d == Error(NotEnoughRoom) {
        return Threw(NotEnoughRoomThrown);
      } else if d.Error? && !IsCodePointValid(mark) {
        return Threw(InvalidCodePointThrown(mark));
      }
      RepairRound(out, todo, mark);
      if d.Ok? {
        start := start + d.len;
        assert s[sequenceStart..start] == todo[..d.len];
        out := CopyOctets(s, sequenceStart, start, out);
      } else {
        out := out + Encode(mark);
        start := start + 1;
        assert s[start..] == todo[1..];
        if d.err != InvalidLead {
          start := SkipTrails(s, start);
        }
      }
      assert s[start..] == todo[UnitLength(todo)..];
    }
    assert s[start..] == [] && out + [] == out;
    return Done(out);
  }

  // ---------------------------------------------------------------------------------------------
  // What the repair guarantees.

  /** The repair without its exception: a truncated last character is marked like any other bad one. */
  function Mend(s: seq<byte>, mark: uint32): seq<byte> {
    if s == [] then [] else Unit(s, mark) + Mend(s[UnitLength(s)..], mark)
  }

  /** The text stops in the middle of a character: a lead octet that wants more trail octets than follow it. */
  ghost predicate Truncated(s: seq<byte>) {
    exists k :: 1 <= k <= |s| && TruncatedAt(s, k)
  }

  predicate TruncatedAt(s: seq<byte>, k: nat)
    requires 1 <= k <= |s|
  {
    SequenceLength(s[|s| - k]) > k && forall i :: |s| - k < i < |s| ==> IsTrail(s[i])
  }

  lemma RoomIffNotTruncatedHere(s: seq<byte>)
    requires |s| > 0
    ensures ValidateNext(s) == Error(NotEnoughRoom) <==> TruncatedAt(s, |s|)
  {
  }

  lemma {:induction false} TrailsCounted(s: seq<byte>)
    ensures forall i :: 0 <= i < TrailCount(s) ==> IsTrail(s[i])
  {
    if s != [] && IsTrail(s[0]) {
      TrailsCounted(s[1..]);
      forall i | 1 <= i < TrailCount(s) ensures IsTrail(s[i]) { assert s[i] == s[1..][i - 1]; }
    }
  }

  lemma UnitIsLeadAndTrails(s: seq<byte>)
    requires |s| > 0
    ensures forall i :: 1 <= i < UnitLength(s) ==> IsTrail(s[i])
  {
    hide ValidateNext, TrailCount;
    if ValidateNext(s).Ok? {
      OnlyTrailsFollow(s);
    } else if ValidateNext(s).err != InvalidLead {
      TrailsCounted(s[1..]);
      forall i | 1 <= i < UnitLength(s) ensures IsTrail(s[i]) { assert s[i] == s[1..][i - 1]; }
    }
  }

  lemma TruncatedAfterUnit(s: seq<byte>)
    requires |s| > 0 && !TruncatedAt(s, |s|)
    ensures Truncated(s) <==> Truncated(s[UnitLength(s)..])
  {
    hide UnitLength;
    UnitIsLeadAndTrails(s);
    var n := UnitLength(s);
    var t := s[n..];
    if Truncated(s) {
      var k :| 1 <= k <= |s| && TruncatedAt(s, k);
      assert !IsTrail(s[|s| - k]);
      assert k <= |t|;
      assert TruncatedAt(t, k);
    }
    if Truncated(t) {
      var k :| 1 <= k <= |t| && TruncatedAt(t, k);
      assert forall i :: |s| - k < i < |s| ==> s[i] == t[i - n];
      assert TruncatedAt(s, k);
    }
  }

  /** `replace_invalid` throws exactly on truncated text, and otherwise returns the mended text. */
  lemma {:induction false} ReplaceInvalidExactly(s: seq<byte>, mark: uint32)
    requires IsCodePointValid(mark)
    ensures ReplaceInvalid(s, mark) == if Truncated(s) then Threw(NotEnoughRoomThrown) else Done(Mend(s, mark))
    decreases |s|
  {
    hide ValidateNext, TruncatedAt, UnitLength, Unit;
    if s != [] {
      RoomIffNotTruncatedHere(s);
      if !TruncatedAt(s, |s|) {
        TruncatedAfterUnit(s);
        ReplaceInvalidExactly(s[UnitLength(s)..], mark);
      }
    }
  }

  lemma UnitIsText(s: seq<byte>, mark: uint32)
    requires |s| > 0 && IsCodePointValid(mark)
    ensures WellFormed(Unit(s, mark))
  {
    hide ValidateNext, Encode;
    if ValidateNext(s).Ok? { CharacterIsText(s); } else { EncodedIsText(mark); }
  }

  /** The mended text is well-formed UTF-8. */
  lemma {:induction false} MendedIsText(s: seq<byte>, mark: uint32)
    requires IsCodePointValid(mark)
    ensures WellFormed(Mend(s, mark))
    decreases |s|
  {
    hide ValidateNext, UnitLength, Unit;
    if s != [] {
      var rest := s[UnitLength(s)..];
      MendedIsText(rest, mark);
      UnitIsText(s, mark);
      TextConcat(Unit(s, mark), Mend(rest, mark));
    }
  }

  lemma UnitOfText(s: seq<byte>, mark: uint32)
    requires s != [] && WellFormed(s)
    ensures Unit(s, mark) == s[..UnitLength(s)] && WellFormed(s[UnitLength(s)..]) && !TruncatedAt(s, |s|)
  {
    hide ValidateNext, RfcLength, TruncatedAt;
    ValidateNextIsRfc3629(s);
    RoomIffNotTruncatedHere(s);
  }

  /** Well-formed text is left alone. */
  lemma {:induction false} MendKeepsText(s: seq<byte>, mark: uint32)
    requires WellFormed(s)
    ensures Mend(s, mark) == s && !Truncated(s)
    decreases |s|
  {
    hide TruncatedAt, UnitLength, Unit, WellFormed;
    if s != [] {
      UnitOfText(s, mark);
      TruncatedAfterUnit(s);
      MendKeepsText(s[UnitLength(s)..], mark);
    }
  }

  /** The repaired output is well-formed, and repairing it again changes nothing. */
  lemma ReplaceInvalidIsIdempotent(s: seq<byte>, mark: uint32)
    requires IsCodePointValid(mark) && ReplaceInvalid(s, mark).Done?
    ensures WellFormed(ReplaceInvalid(s, mark).value)
    ensures ReplaceInvalid(ReplaceInvalid(s, mark).value, mark) == ReplaceInvalid(s, mark)
  {
    hide Truncated, Mend, WellFormed, ReplaceInvalid;
    ReplaceInvalidExactly(s, mark);
    MendedIsText(s, mark);
    MendKeepsText(Mend(s, mark), mark);
    ReplaceInvalidExactly(Mend(s, mark), mark);
  }

  /** The octets below 0x80, in order. */
  function AsciiOf(s: seq<byte>): seq<byte> {
    if s == [] then [] else (if IsAscii(s[0]) then [s[0]] else []) + AsciiOf(s[1..])
  }

  lemma {:induction false} AsciiOfConcat(a: seq<byte>, b: seq<byte>)
    ensures AsciiOf(a + b) == AsciiOf(a) + AsciiOf(b)
  {
    if a == [] {
      assert a + b == b;
    } else {
      AsciiOfConcat(a[1..], b);
      TailOfConcat(a, b);
      Assoc(if IsAscii(a[0]) then [a[0]] else [], AsciiOf(a[1..]), AsciiOf(b));
    }
  }

  lemma {:induction false} NoAscii(s: seq<byte>)
    requires forall i :: 0 <= i < |s| ==> !IsAscii(s[i])
    ensures AsciiOf(s) == []
  {
    if s != [] { NoAscii(s[1..]); }
  }

  lemma EncodedAboveAscii(cp: uint32)
    requires IsCodePointValid(cp) && cp >= 0x80
    ensures forall i :: 0 <= i < |Encode(cp)| ==> !IsAscii(Encode(cp)[i])
  {
  }

  lemma AsciiIsAccepted(s: seq<byte>)
    requires |s| > 0 && IsAscii(s[0])
    ensures ValidateNext(s) == Ok(s[0], 1)
  {
  }

  lemma AsciiOfUnit(s: seq<byte>, mark: uint32)
    requires |s| > 0 && IsCodePointValid(mark) && mark >= 0x80
    ensures AsciiOf(Unit(s, mark)) == AsciiOf(s[..UnitLength(s)])
  {
    if ValidateNext(s).Error? {
      hide ValidateNext, Encode, AsciiOf, UnitLength;
      if IsAscii(s[0]) { AsciiIsAccepted(s); }
      UnitIsLeadAndTrails(s);
      NoAscii(s[..UnitLength(s)]);
      EncodedAboveAscii(mark);
      NoAscii(Encode(mark));
    }
  }

  /** With a mark outside ASCII, the repair keeps every ASCII octet and adds none. */
  lemma {:induction false} MendKeepsAscii(s: seq<byte>, mark: uint32)
    requires IsCodePointValid(mark) && mark >= 0x80
    ensures AsciiOf(Mend(s, mark)) == AsciiOf(s)
    decreases |s|
  {
    hide AsciiOf, Unit, UnitLength;
    if s != [] {
      var n := UnitLength(s);
      MendKeepsAscii(s[n..], mark);
      AsciiOfConcat(Unit(s, mark), Mend(s[n..], mark));
      AsciiOfUnit(s, mark);
      AsciiOfConcat(s[..n], s[n..]);
      assert s == s[..n] + s[n..];
    }
  }

  // ---------------------------------------------------------------------------------------------
  // ASCII octets cut the text into parts that are repaired independently.

  lemma {:induction false} TrailCountStops(s: seq<byte>, t: seq<byte>)
    requires t != [] && !IsTrail(t[0])
    ensures TrailCount(s + t) == TrailCount(s)
  {
    if s == [] {
      assert s + t == t;
    } else {
      TailOfConcat(s, t);
      TrailCountStops(s[1..], t);
    }
  }

  lemma DecodingStopsAtAscii(s: seq<byte>, t: seq<byte>)
    requires |s| > 0 && t != [] && IsAscii(t[0])
    ensures ValidateNext(s + t)
         == if ValidateNext(s) == Error(NotEnoughRoom) then Error(IncompleteSequence) else ValidateNext(s)
  {
  }

  lemma UnitStopsAtAscii(s: seq<byte>, t: seq<byte>, mark: uint32)
    requires |s| > 0 && t != [] && IsAscii(t[0])
    ensures UnitLength(s + t) == UnitLength(s) && Unit(s + t, mark) == Unit(s, mark)
  {
    hide ValidateNext, TrailCount, Encode;
    DecodingStopsAtAscii(s, t);
    TailOfConcat(s, t);
    TrailCountStops(s[1..], t);
    DropConcat(s, t, UnitLength(s));
  }

  lemma MendStep(s: seq<byte>, mark: uint32)
    requires s != []
    ensures Mend(s, mark) == Unit(s, mark) + Mend(s[UnitLength(s)..], mark)
  {
  }

  lemma MendNothing(mark: uint32)
    ensures Mend([], mark) == []
  {
  }

  /** The repair treats the text before an ASCII octet and the text from it on independently. */
  lemma {:induction false} MendSplitsAtAscii(s: seq<byte>, t: seq<byte>, mark: uint32)
    requires t != [] && IsAscii(t[0])
    ensures Mend(s + t, mark) == Mend(s, mark) + Mend(t, mark)
    decreases |s|
  {
    hide Unit, UnitLength, Mend;
    if s == [] {
      assert s + t == t;
      MendNothing(mark);
    } else {
      var n := UnitLength(s);
      UnitStopsAtAscii(s, t, mark);
      DropConcat(s, t, n);
      MendStep(s, mark);
      MendStep(s + t, mark);
      MendSplitsAtAscii(s[n..], t, mark);
      Assoc(Unit(s, mark), Mend(s[n..], mark), Mend(t, mark));
    }
  }

  lemma MendAsciiHead(q: byte, s: seq<byte>, mark: uint32)
    requires IsAscii(q)
    ensures Mend([q] + s, mark) == [q] + Mend(s, mark)
  {
    AsciiIsAccepted([q] + s);
    hide ValidateNext;
    CutConcat([q], s);
  }
}
