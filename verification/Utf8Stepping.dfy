/** Stepping over characters: the checked `next` and `prior`, and the unchecked fast forms. */
module Utf8Stepping {
  import opened Bytes
  import opened Utf8Core
  import opened Utf8Checked

  /** A decoded code point and the position the iterator ends on. */
  datatype Stepped = Stepped(cp: uint32, it: nat)

  /** Checked `next`; a failing decode never wrote its code point, so 0 is what the exception carries. */
  function Next(s: seq<byte>, it: nat): Result<Stepped>
    requires it < |s|
  {
    match ValidateNext(s[it..])
    case Ok(cp, len) => Done(Stepped(cp, it + len))
    case Error(NotEnoughRoom) => Threw(NotEnoughRoomThrown)
    case Error(InvalidCodePoint) => Threw(InvalidCodePointThrown(0))
    case Error(_) => Threw(InvalidUtf8Thrown)
  }

  /** The nearest octet before `it` that is not a trail octet, no further back than `start`. */
  function LeadBefore(s: seq<byte>, it: nat, start: nat): (r: Option<nat>)
    requires start <= it <= |s|
    ensures r.Some? ==> start <= r.value < it
    decreases it
  {
    if it == start then None
    else if IsTrail(s[it - 1]) then LeadBefore(s, it - 1, start)
    else Some(it - 1)
  }

  /** Checked `prior`: decode the character that ends at `it`. */
  function Prior(s: seq<byte>, it: nat, start: nat): Result<Stepped>
    requires start <= it <= |s|
  {
    if it == start then Threw(NotEnoughRoomThrown)
    else match LeadBefore(s, it, start)
      case None => Threw(InvalidUtf8Thrown)
      case Some(lead) =>
        match Next(s[..it], lead)
        case Done(st) => Done(Stepped(st.cp, lead))
        case Threw(e) => Threw(e)
  }

  method RunPrior(s: seq<byte>, from: nat, start: nat) returns (r: Result<Stepped>)
    requires start <= from <= |s|
    ensures r == Prior(s, from, start)
  {
    hide Next;
    var it := from;
    if it == start {
      return Threw(NotEnoughRoomThrown);
    }
    it := it - 1;
    while IsTrail(s[it])
      invariant start <= it < from
      invariant LeadBefore(s, it + 1, start) == LeadBefore(s, from, start)
      decreases it
    {
      if it == start {
        return Threw(InvalidUtf8Thrown);
      }
      it := it - 1;
    }
    match Next(s[..from], it) {
      case Done(st) => return Done(Stepped(st.cp, it));
      case Threw(e) => return Threw(e);
    }
  }

  /** Unchecked `next`: trusts the lead octet and never looks for an end. */
  function UncheckedNext(s: seq<byte>, it: nat): Stepped
    requires it < |s| && it + SequenceLength(s[it]) <= |s|
  {
    match SequenceLength(s[it])
    case 2 => Stepped(CodePoint2(s[it], s[it + 1]), it + 2)
    case 3 => Stepped(CodePoint3(s[it], s[it + 1], s[it + 2]), it + 3)
    case 4 => Stepped(CodePoint4(s[it], s[it + 1], s[it + 2], s[it + 3]), it + 4)
    case _ => Stepped(s[it], it + 1)
  }

  /** Unchecked `prior`: walks back over trail octets without a bound of its own. */
  method UncheckedPrior(s: seq<byte>, from: nat) returns (r: Stepped)
    requires from <= |s|
    requires LeadBefore(s, from, 0).Some?
    requires var lead := LeadBefore(s, from, 0).value; lead + SequenceLength(s[lead]) <= |s|
    ensures var lead := LeadBefore(s, from, 0).value;
            r == Stepped(UncheckedNext(s, lead).cp, lead)
  {
    var it := from - 1;
    while IsTrail(s[it])
      invariant 0 <= it < from
      invariant LeadBefore(s, it + 1, 0) == LeadBefore(s, from, 0)
      decreases it
    {
      it := it - 1;
    }
    r := Stepped(UncheckedNext(s, it).cp, it);
  }

  /** Wherever the checked `next` succeeds, the unchecked one gives the same code point and position. */
  lemma UncheckedNextAgrees(s: seq<byte>, it: nat)
    requires it < |s| && Next(s, it).Done?
    ensures it + SequenceLength(s[it]) <= |s| && UncheckedNext(s, it) == Next(s, it).value
  {
    var t := s[it..];
    assert t[0] == s[it] && ValidateNext(t).Ok? && ValidateNext(t).len == SequenceLength(t[0]);
  }

  lemma {:induction false} LeadBeforeSkipsTrails(s: seq<byte>, lead: nat, it: nat, start: nat)
    requires start <= lead < it <= |s| && !IsTrail(s[lead])
    requires forall i :: lead < i < it ==> IsTrail(s[i])
    ensures LeadBefore(s, it, start) == Some(lead)
    decreases it
  {
    if it > lead + 1 { LeadBeforeSkipsTrails(s, lead, it - 1, start); }
  }

  lemma ValidateNextLocal(s: seq<byte>)
    requires |s| > 0 && ValidateNext(s).Ok?
    ensures ValidateNext(s[..ValidateNext(s).len]) == ValidateNext(s)
  {
  }

  /** `prior` undoes `next`, from wherever `next` succeeded and however far back it may look. */
  lemma PriorUndoesNext(s: seq<byte>, it: nat, start: nat)
    requires start <= it < |s| && Next(s, it).Done?
    ensures Next(s, it).value.it <= |s|
    ensures Prior(s, Next(s, it).value.it, start) == Done(Stepped(Next(s, it).value.cp, it))
  {
    var t := s[it..];
    var len := ValidateNext(t).len;
    OnlyTrailsFollow(t);
    ValidateNextLocal(t);
    hide ValidateNext;
    forall i | it < i < it + len ensures IsTrail(s[i]) { assert s[i] == t[i - it]; }
    assert s[it] == t[0];
    LeadBeforeSkipsTrails(s, it, it + len, start);
    assert s[..it + len][it..] == t[..len];
  }

  /** The unchecked `prior` takes the same step back. */
  lemma UncheckedPriorAgrees(s: seq<byte>, it: nat)
    requires it < |s| && Next(s, it).Done?
    ensures var next := Next(s, it).value;
      && next.it <= |s| && LeadBefore(s, next.it, 0) == Some(it)
      && it + SequenceLength(s[it]) <= |s| && UncheckedNext(s, it).cp == next.cp
  {
    UncheckedNextAgrees(s, it);
    PriorUndoesNext(s, it, 0);
    hide UncheckedNext;
  }
}
