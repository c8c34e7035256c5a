/** UDP sequence numbers: the packet header, and loss and reordering counted in constant space. */
module Udp {
  import opened Bytes
  import opened Framing

  // ---------------------------------------------------------------------------------------------
  // The header

  datatype Header = Header(secs: nat, usecs: nat, pcount: nat)

  predicate Fits(h: Header) { h.secs < WORD && h.usecs < WORD && h.pcount < WORD * WORD }

  /** What `iperf_udp_send` writes at the front of the buffer. */
  function Encode(h: Header, wide: bool): seq<byte>
    requires Fits(h)
  {
    BigEndian(h.secs) + BigEndian(h.usecs)
    + (if wide then BigEndian(h.pcount / WORD) else []) + BigEndian(h.pcount % WORD)
  }

  /** What `iperf_udp_recv` reads back; the payload may be anything. */
  function Decode(s: seq<byte>, wide: bool): Header
    requires |s| >= if wide then 16 else 12
  {
    var tail := FromBigEndian(if wide then s[12..16] else s[8..12]);
    Header(
      FromBigEndian(s[0..4]), FromBigEndian(s[4..8]),
      if wide then FromBigEndian(s[8..12]) * WORD + tail else tail)
  }

  /** The receiver sees what was sent; without 64-bit counters, exactly up to packet 2^32 - 1. */
  lemma HeaderRoundTrip(h: Header, wide: bool, payload: seq<byte>)
    requires Fits(h)
    ensures |Encode(h, wide)| == if wide then 16 else 12
    ensures Decode(Encode(h, wide) + payload, wide) == h <==> wide || h.pcount < WORD
  {
    hide BigEndian, FromBigEndian;
    var s := Encode(h, wide) + payload;
    BigEndianRoundTrip(h.secs);
    BigEndianRoundTrip(h.usecs);
    BigEndianRoundTrip(h.pcount % WORD);
    assert s[0..4] == BigEndian(h.secs) && s[4..8] == BigEndian(h.usecs);
    if wide {
      BigEndianRoundTrip(h.pcount / WORD);
      assert s[8..12] == BigEndian(h.pcount / WORD) && s[12..16] == BigEndian(h.pcount % WORD);
    } else {
      assert s[8..12] == BigEndian(h.pcount % WORD);
    }
  }

  lemma {:induction false} TwoWords(a: seq<byte>, b: seq<byte>)
    requires |b| == 4
    ensures NetworkValue(a + b) == NetworkValue(a) * WORD + NetworkValue(b)
  {
    AppendedOctet(a, b[..3], b[3]);
    AppendedOctet(a, b[..2], b[2]);
    AppendedOctet(a, b[..1], b[1]);
    AppendedOctet(a, [], b[0]);
    assert b == b[..3] + [b[3]] && b[..3] == b[..2] + [b[2]] && b[..2] == b[..1] + [b[1]] && b[..1] == [] + [b[0]];
    assert a + [] == a;
    hide NetworkValue;
  }

  lemma AppendedOctet(a: seq<byte>, b: seq<byte>, x: byte)
    ensures NetworkValue(a + (b + [x])) == NetworkValue(a + b) * 0x100 + x
    ensures NetworkValue(b + [x]) == NetworkValue(b) * 0x100 + x && NetworkValue([]) == 0
  {
    var s := a + (b + [x]);
    assert s[..|s| - 1] == a + b && s[|s| - 1] == x;
    assert (b + [x])[..|b|] == b;
  }

  /** Seconds, microseconds and packet number follow each other in network order. */
  lemma HeaderOnTheWire(h: Header, wide: bool)
    requires Fits(h)
    ensures |Encode(h, wide)| == if wide then 16 else 12
    ensures NetworkValue(Encode(h, wide)[0..4]) == h.secs && NetworkValue(Encode(h, wide)[4..8]) == h.usecs
    ensures NetworkValue(Encode(h, wide)[8..]) == if wide then h.pcount else h.pcount % WORD
  {
    hide BigEndian, FromBigEndian, NetworkValue;
    var s, low := Encode(h, wide), BigEndian(h.pcount % WORD);
    WordsAreInNetworkOrder(h.secs, low);
    WordsAreInNetworkOrder(h.usecs, low);
    WordsAreInNetworkOrder(h.pcount % WORD, low);
    assert s[0..4] == BigEndian(h.secs) && s[4..8] == BigEndian(h.usecs);
    if wide {
      WordsAreInNetworkOrder(h.pcount / WORD, low);
      assert s[8..] == BigEndian(h.pcount / WORD) + low;
      TwoWords(BigEndian(h.pcount / WORD), low);
    } else {
      assert s[8..] == low;
    }
  }

  // ---------------------------------------------------------------------------------------------
  // The counters

  datatype Counters = Counters(packetCount: nat, cntError: nat, outOfOrder: nat)

  const ZERO: Counters := Counters(0, 0, 0)

  /** The counters after one more packet. */
  function Counted(c: Counters, pcount: nat): Counters {
    if pcount > c.packetCount then c.(packetCount := pcount, cntError := c.cntError + (pcount - 1 - c.packetCount))
    else c.(outOfOrder := c.outOfOrder + 1, cntError := if c.cntError > 0 then c.cntError - 1 else 0)
  }

  class UdpStream {
    var packetCount: nat
    var cntError: nat
    var outOfOrder: nat

    ghost function Now(): Counters
      reads this
    {
      Counters(packetCount, cntError, outOfOrder)
    }

    /** The sequence-number part of `iperf_udp_recv`. */
    method Receive(pcount: nat)
      modifies this
      ensures Now() == Counted(old(Now()), pcount)
    {
      if pcount >= packetCount + 1 {
        if pcount > packetCount + 1 {
          cntError := cntError + (pcount - 1 - packetCount);
        }
        packetCount := pcount;
      } else {
        outOfOrder := outOfOrder + 1;
        if cntError > 0 {
          cntError := cntError - 1;
        }
      }
    }
  }

  /** The counters after the packets with these numbers, in this order. */
  function Tally(ps: seq<nat>): Counters {
    if ps == [] then ZERO else Counted(Tally(ps[..|ps| - 1]), ps[|ps| - 1])
  }

  /** The sequence numbers that have arrived. Packets are numbered from 1. */
  function Seen(ps: seq<nat>): set<nat> { set p | p in ps && p > 0 }

  function UpTo(n: nat): (r: set<nat>)
    ensures |r| == n && forall p :: p in r <==> 1 <= p <= n
  {
    if n == 0 then {} else UpTo(n - 1) + {n}
  }

  /** The highest number that has arrived. */
  function Highest(ps: seq<nat>): nat {
    if ps == [] then 0
    else
      var h, p := Highest(ps[..|ps| - 1]), ps[|ps| - 1];
      if p > h then p else h
  }

  /** Numbers below the highest one that have not arrived. */
  function Missing(ps: seq<nat>): set<nat> { UpTo(Highest(ps)) - Seen(ps) }

  /** Arrivals that brought nothing new. */
  function Repeats(ps: seq<nat>): int { |ps| - |Seen(ps)| }

  /** By how much arrivals have ever outnumbered the packets up to the highest number. */
  function Deficit(ps: seq<nat>): int {
    if ps == [] then 0
    else
      var d, now := Deficit(ps[..|ps| - 1]), |ps| - Highest(ps);
      if now > d then now else d
  }

  /** A packet no later in the numbering than one that came before it. */
  ghost predicate Late(ps: seq<nat>, i: int)
    requires 0 <= i < |ps|
  {
    ps[i] == 0 || exists j :: 0 <= j < i && ps[i] <= ps[j]
  }

  ghost function LatePositions(ps: seq<nat>): set<int> { set i | 0 <= i < |ps| && Late(ps, i) }

  lemma TallyNext(ps: seq<nat>, p: nat)
    ensures Tally(ps + [p]) == Counted(Tally(ps), p)
    ensures Seen(ps + [p]) == Seen(ps) + (if p > 0 then {p} else {})
    ensures Highest(ps + [p]) == if p > Highest(ps) then p else Highest(ps)
  {
    assert (ps + [p])[..|ps|] == ps;
    assert forall q :: q in ps + [p] <==> q in ps || q == p;
  }

  lemma LastApart(ps: seq<nat>)
    requires ps != []
    ensures ps == ps[..|ps| - 1] + [ps[|ps| - 1]]
  {
  }

  /** `packet_count` is the highest number seen. */
  lemma {:induction false} CountIsHighest(ps: seq<nat>)
    ensures Tally(ps).packetCount == Highest(ps)
    ensures forall p :: p in ps ==> p <= Highest(ps)
    ensures Highest(ps) in ps || Highest(ps) == 0
  {
    if ps != [] {
      var init, p := ps[..|ps| - 1], ps[|ps| - 1];
      LastApart(ps);
      CountIsHighest(init);
      TallyNext(init, p);
      hide Tally, Highest;
      assert forall q :: q in ps <==> q in init || q == p;
    }
  }

  lemma MissingSize(ps: seq<nat>)
    ensures |Missing(ps)| == Highest(ps) - |Seen(ps)|
  {
    CountIsHighest(ps);
    hide Highest;
    assert Seen(ps) <= UpTo(Highest(ps));
    assert |UpTo(Highest(ps)) - Seen(ps)| == |UpTo(Highest(ps))| - |Seen(ps)|;
  }

  /** What the constant-space counter computes, whatever arrives. */
  lemma {:induction false} LossIs(ps: seq<nat>)
    ensures Tally(ps).cntError == Highest(ps) - |ps| + Deficit(ps)
  {
    if ps != [] {
      var init, p := ps[..|ps| - 1], ps[|ps| - 1];
      LastApart(ps);
      LossIs(init);
      CountIsHighest(init);
      TallyNext(init, p);
      DeficitSoFar(init);
      assert Deficit(ps) == if |ps| - Highest(ps) > Deficit(init) then |ps| - Highest(ps) else Deficit(init);
      hide Tally, Highest, Deficit;
    }
  }

  lemma DeficitSoFar(ps: seq<nat>)
    ensures Deficit(ps) >= |ps| - Highest(ps)
  {
    hide Highest;
    if ps == [] {
      CountIsHighest(ps);
    }
  }

  /**
   * The counter falls short of the true number of missing packets by the repeats that no deficit
   * accounts for, so it is exact if and only if the deficit accounts for all of them.
   */
  lemma LossExactly(ps: seq<nat>)
    ensures |Missing(ps)| - Tally(ps).cntError == Repeats(ps) - Deficit(ps)
    ensures Tally(ps).cntError == |Missing(ps)| <==> Repeats(ps) == Deficit(ps)
  {
    LossIs(ps);
    MissingSize(ps);
    hide Tally, Missing, Deficit, Highest;
  }

  /** A deficit comes from repeats only. */
  lemma {:induction false} DeficitIsRepeats(ps: seq<nat>)
    ensures 0 <= Deficit(ps) <= Repeats(ps)
  {
    if ps != [] {
      var init, p := ps[..|ps| - 1], ps[|ps| - 1];
      LastApart(ps);
      DeficitIsRepeats(init);
      MissingSize(ps);
      TallyNext(init, p);
      assert Deficit(ps) == if |ps| - Highest(ps) > Deficit(init) then |ps| - Highest(ps) else Deficit(init);
      hide Tally, Missing, Deficit, Highest;
    }
  }

  /**
   * Whatever arrives, in whatever order: the loss counter never exceeds the true number of missing
   * packets, and falls short of it by no more than the number of repeated packets.
   */
  lemma LossBounds(ps: seq<nat>)
    ensures |Missing(ps)| - Repeats(ps) <= Tally(ps).cntError <= |Missing(ps)|
  {
    LossExactly(ps);
    DeficitIsRepeats(ps);
    hide Tally, Missing, Deficit, Repeats;
  }

  /** Without repeats the count is exact, and the numbers up to the highest are all accounted for. */
  lemma LossIsExact(ps: seq<nat>)
    requires Repeats(ps) == 0
    ensures Tally(ps).cntError == |Missing(ps)| && Tally(ps).packetCount == |ps| + Tally(ps).cntError
  {
    LossBounds(ps);
    MissingSize(ps);
    CountIsHighest(ps);
    hide Tally, Missing, Highest;
  }

  /** No repeats: every packet carries a number, and no two the same one. */
  lemma {:induction false} NoRepeats(ps: seq<nat>)
    ensures Repeats(ps) >= 0
    ensures Repeats(ps) == 0 <==> 0 !in ps && forall i, j :: 0 <= i < j < |ps| ==> ps[i] != ps[j]
  {
    if ps != [] {
      var init, p := ps[..|ps| - 1], ps[|ps| - 1];
      LastApart(ps);
      NoRepeats(init);
      TallyNext(init, p);
      hide Tally;
      assert forall q :: q in ps <==> q in init || q == p;
      if p > 0 && p !in init {
        assert |Seen(ps)| == |Seen(init)| + 1;
      } else {
        assert Seen(ps) == Seen(init);
        assert p == 0 || p in init;
      }
    }
  }

  /** The order of delivery does not matter. */
  lemma OrderIsIrrelevant(ps: seq<nat>, qs: seq<nat>)
    requires Repeats(ps) == 0 == Repeats(qs) && Seen(ps) == Seen(qs)
    ensures Tally(ps).packetCount == Tally(qs).packetCount && Tally(ps).cntError == Tally(qs).cntError
  {
    SameHighest(ps, qs);
    LossIsExact(ps);
    LossIsExact(qs);
    hide Tally;
  }

  lemma SameHighest(ps: seq<nat>, qs: seq<nat>)
    requires Seen(ps) == Seen(qs)
    ensures Tally(ps).packetCount <= Tally(qs).packetCount && Tally(qs).packetCount <= Tally(ps).packetCount
  {
    CountIsHighest(ps);
    CountIsHighest(qs);
    hide Tally;
    assert forall p :: p in ps && p > 0 ==> p in Seen(qs);
    assert forall p :: p in qs && p > 0 ==> p in Seen(ps);
  }

  /** A repeated packet can hide a loss. */
  lemma RepeatsHideLosses()
    ensures Tally([3, 3]).cntError < |Missing([3, 3])|
  {
    var once, twice := [3], [3, 3];
    assert [] + [3] == once && once + [3] == twice;
    TallyNext([], 3);
    TallyNext(once, 3);
    MissingSize(twice);
    assert Tally([]) == ZERO && Highest([]) == 0 && Seen([]) == {};
    hide Tally, Highest, Missing, Seen;
  }

  /** `outoforder_packets` counts the late arrivals. */
  lemma {:induction false} OutOfOrderIsLate(ps: seq<nat>)
    ensures Tally(ps).outOfOrder == |LatePositions(ps)|
  {
    if ps != [] {
      var init, p := ps[..|ps| - 1], ps[|ps| - 1];
      LastApart(ps);
      OutOfOrderIsLate(init);
      TallyNext(init, p);
      CountIsHighest(init);
      LateNext(init, p, Tally(init).packetCount);
      hide Tally, LatePositions;
    }
  }

  lemma LateBefore(ps: seq<nat>, p: nat)
    ensures LatePositions(ps + [p]) == LatePositions(ps) + if Late(ps + [p], |ps|) then {|ps|} else {}
  {
    var qs := ps + [p];
    assert forall i :: 0 <= i < |ps| ==> qs[i] == ps[i];
    assert forall i :: 0 <= i < |ps| ==> (Late(qs, i) <==> Late(ps, i));
  }

  lemma LateNext(ps: seq<nat>, p: nat, highest: nat)
    requires (forall q :: q in ps ==> q <= highest) && (highest in ps || highest == 0)
    ensures |LatePositions(ps + [p])| == |LatePositions(ps)| + if p <= highest then 1 else 0
  {
    var qs := ps + [p];
    LateBefore(ps, p);
    if p <= highest && p > 0 {
      var j :| 0 <= j < |ps| && ps[j] == highest;
      assert qs[|ps|] <= qs[j];
    }
    assert forall j :: 0 <= j < |ps| ==> qs[j] in ps;
    assert Late(qs, |ps|) <==> p <= highest;
    assert |ps| !in LatePositions(ps);
    hide Late;
  }
}
