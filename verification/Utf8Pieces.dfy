/** What the repair makes of a text, piece by piece: characters stay, and every bad piece becomes one mark. */
module Utf8Pieces {
  import opened Bytes
  import opened Utf8Core
  import opened Utf8Checked

  /** A character of section 4 of RFC 3629, or octets that start none. */
  datatype Piece = Character(octets: seq<byte>) | Bad(octets: seq<byte>)

  /**
   * The piece at the head of a text. A bad one is a single octet or, if that octet announces a
   * sequence, the octet and all the trail octets after it.
   */
  ghost predicate Heads(p: Piece, s: seq<byte>) {
    && 0 < |p.octets| <= |s| && p.octets == s[..|p.octets|]
    && match p
       case Character(o) => RfcLength(s) == |o|
       case Bad(o) => RfcLength(s) == 0 && if 0xc0 <= s[0] <= 0xf7 then TrailsAfter(s, |o|) else |o| == 1
  }

  /** The octets from the second up to the `n`-th are trail octets, and no more follow. */
  ghost predicate TrailsAfter(s: seq<byte>, n: nat)
    requires 0 < n <= |s|
  {
    (forall i :: 1 <= i < n ==> 0x80 <= s[i] <= 0xbf) && (n < |s| ==> !(0x80 <= s[n] <= 0xbf))
  }

  /** The pieces make up the text. */
  ghost predicate IsCut(ps: seq<Piece>, s: seq<byte>) {
    if ps == [] then s == [] else Heads(ps[0], s) && IsCut(ps[1..], s[|ps[0].octets|..])
  }

  /** The text with one mark for every bad piece. */
  function Marked(ps: seq<Piece>, mark: seq<byte>): seq<byte> {
    if ps == [] then []
    else (if ps[0].Bad? then mark else ps[0].octets) + Marked(ps[1..], mark)
  }

  function BadPieces(ps: seq<Piece>): nat {
    if ps == [] then 0 else (if ps[0].Bad? then 1 else 0) + BadPieces(ps[1..])
  }

  function GoodOctets(ps: seq<Piece>): nat {
    if ps == [] then 0 else (if ps[0].Bad? then 0 else |ps[0].octets|) + GoodOctets(ps[1..])
  }

  lemma {:induction false} TrailCountIsMaximal(s: seq<byte>)
    ensures forall i :: 0 <= i < TrailCount(s) ==> 0x80 <= s[i] <= 0xbf
    ensures TrailCount(s) < |s| ==> !(0x80 <= s[TrailCount(s)] <= 0xbf)
  {
    if s != [] && IsTrail(s[0]) {
      TrailCountIsMaximal(s[1..]);
    }
  }

  /** Octets that announce a sequence. */
  lemma LeadClasses(s: seq<byte>)
    requires |s| > 0
    ensures ValidateNext(s) == Error(InvalidLead) <==> s[0] >= 0x80 && !(0xc0 <= s[0] <= 0xf7)
  {
  }

  /** The piece that one round consumes. */
  lemma UnitIsPiece(s: seq<byte>) returns (p: Piece)
    requires |s| > 0
    ensures Heads(p, s) && |p.octets| == UnitLength(s) && (p.Bad? <==> ValidateNext(s).Error?)
  {
    ValidateNextIsRfc3629(s);
    LeadClasses(s);
    var o := s[..UnitLength(s)];
    if ValidateNext(s).Ok? {
      p := Character(o);
    } else {
      p := Bad(o);
      AsciiStarts(s);
      TrailCountIsMaximal(s[1..]);
    }
    hide ValidateNext, RfcLength, TrailCount;
  }

  lemma AsciiStarts(s: seq<byte>)
    requires |s| > 0 && ValidateNext(s).Error?
    ensures s[0] >= 0x80
  {
  }

  /** Only one piece can be at the head of a text. */
  lemma HeadIsUnique(p: Piece, q: Piece, s: seq<byte>)
    requires Heads(p, s) && Heads(q, s)
    ensures p == q
  {
    hide RfcLength;
  }

  lemma {:induction false} CutExists(s: seq<byte>) returns (ps: seq<Piece>)
    ensures IsCut(ps, s)
  {
    hide Heads;
    ps := [];
    if s != [] {
      var p := UnitIsPiece(s);
      var rest := CutExists(s[UnitLength(s)..]);
      ps := [p] + rest;
      assert ps[1..] == rest;
    }
  }

  lemma {:induction false} CutIsUnique(ps: seq<Piece>, qs: seq<Piece>, s: seq<byte>)
    requires IsCut(ps, s) && IsCut(qs, s)
    ensures ps == qs
    decreases |ps|
  {
    if ps != [] && qs != [] {
      HeadIsUnique(ps[0], qs[0], s);
      CutIsUnique(ps[1..], qs[1..], s[|ps[0].octets|..]);
      assert ps == [ps[0]] + ps[1..] && qs == [qs[0]] + qs[1..];
    }
  }

  /** The mended text is the text with exactly one mark in place of every bad piece. */
  lemma {:induction false} MendMarksBadPieces(ps: seq<Piece>, s: seq<byte>, mark: uint32)
    requires IsCut(ps, s) && IsCodePointValid(mark)
    ensures Mend(s, mark) == Marked(ps, Encode(mark))
    decreases |ps|
  {
    if ps == [] {
      MendNothing(mark);
    } else {
      var p := UnitIsPiece(s);
      HeadIsUnique(p, ps[0], s);
      MendStep(s, mark);
      MendMarksBadPieces(ps[1..], s[UnitLength(s)..], mark);
      hide Mend, ValidateNext, Encode, Heads;
    }
  }

  lemma {:induction false} MarkedLength(ps: seq<Piece>, mark: seq<byte>)
    ensures |Marked(ps, mark)| == GoodOctets(ps) + BadPieces(ps) * |mark|
  {
    if ps != [] {
      MarkedLength(ps[1..], mark);
    }
  }

  /** What `replace_invalid` returns: the one cut of the text, with a mark for every bad piece, unless it throws. */
  lemma RepairMarksBadPieces(s: seq<byte>, mark: uint32) returns (ps: seq<Piece>)
    requires IsCodePointValid(mark)
    ensures IsCut(ps, s)
    ensures ReplaceInvalid(s, mark) ==
      if Truncated(s) then Threw(NotEnoughRoomThrown) else Done(Marked(ps, Encode(mark)))
    ensures |Marked(ps, Encode(mark))| == GoodOctets(ps) + BadPieces(ps) * |Encode(mark)|
  {
    hide Mend, ReplaceInvalid, Truncated, Encode, Marked, IsCut;
    ps := CutExists(s);
    MendMarksBadPieces(ps, s, mark);
    ReplaceInvalidExactly(s, mark);
    MarkedLength(ps, Encode(mark));
  }
}
