/** What a stream counts: bytes and packets in total, per interval, and in the omitted start of a test. */
module Accounting {
  import opened Udp

  /** UDP figures, or differences of them. */
  datatype Figures = Figures(packets: int, errors: int, outOfOrder: int)

  const NOTHING: Figures := Figures(0, 0, 0)

  function Plus(a: Figures, b: Figures): Figures {
    Figures(a.packets + b.packets, a.errors + b.errors, a.outOfOrder + b.outOfOrder)
  }

  function Minus(a: Figures, b: Figures): Figures {
    Figures(a.packets - b.packets, a.errors - b.errors, a.outOfOrder - b.outOfOrder)
  }

  /** One row of the interval list. */
  datatype Interval = Interval(bytes: nat, omitted: bool, figures: Figures, total: Figures)

  datatype Stream = Stream(
    sender: bool, udp: bool, startFixed: nat, green: bool,
    bytesSent: nat, bytesSentOmit: nat, sentThisInterval: nat,
    bytesReceived: nat, receivedThisInterval: nat,
    counters: Counters, omittedCounters: Counters,
    rows: seq<Interval>)

  function FiguresOf(c: Counters): Figures { Figures(c.packetCount, c.cntError, c.outOfOrder) }

  /** A stream as `iperf_init_test` leaves it. */
  predicate Fresh(st: Stream) {
    && st.bytesSent == st.bytesSentOmit == st.sentThisInterval == 0 == st.bytesReceived == st.receivedThisInterval
    && st.counters == ZERO == st.omittedCounters && st.rows == []
  }

  // ---------------------------------------------------------------------------------------------
  // What happens to a stream

  /** `snd` is about to write: a UDP packet gets its number whether or not it leaves. */
  function Stamped(st: Stream): Stream {
    if st.udp then st.(counters := st.counters.(packetCount := st.counters.packetCount + 1)) else st
  }

  function Sent(st: Stream, r: nat): Stream {
    st.(bytesSent := st.bytesSent + r, sentThisInterval := st.sentThisInterval + r)
  }

  /** `rcv` while the test is running. */
  function Got(st: Stream, r: nat, pcount: nat): Stream {
    st.(
      bytesReceived := st.bytesReceived + r, receivedThisInterval := st.receivedThisInterval + r,
      counters := if st.udp && r > 0 then Counted(st.counters, pcount) else st.counters)
  }

  function LastTotal(rows: seq<Interval>): Figures { if rows == [] then NOTHING else rows[|rows| - 1].total }

  /** One turn of `iperf_stats_callback`. The packet figures of a row mean nothing in a TCP test. */
  function Recorded(st: Stream, omitting: bool): Stream {
    var total := if st.udp then FiguresOf(st.counters) else NOTHING;
    var row := Interval(
      if st.sender then st.sentThisInterval else st.receivedThisInterval, omitting,
      Minus(total, LastTotal(st.rows)), total);
    st.(rows := st.rows + [row], sentThisInterval := 0, receivedThisInterval := 0)
  }

  /** One turn of `iperf_reset_stats`. */
  function Restarted(st: Stream): Stream {
    st.(
      omittedCounters := st.counters, bytesSentOmit := st.bytesSent, bytesReceived := 0,
      sentThisInterval := 0, receivedThisInterval := 0)
  }

  // ---------------------------------------------------------------------------------------------
  // Bytes

  /** Bytes in the rows, all of them or only those that count. */
  function RowBytes(rows: seq<Interval>, all: bool): nat {
    if rows == [] then 0
    else
      var last := rows[|rows| - 1];
      RowBytes(rows[..|rows| - 1], all) + if all || !last.omitted then last.bytes else 0
  }

  /** Omitted rows come first, and while omitting there are no others. */
  ghost predicate OmittedFirst(rows: seq<Interval>, omitting: bool) {
    && (forall i, j :: 0 <= i < j < |rows| && rows[j].omitted ==> rows[i].omitted)
    && (omitting ==> forall i :: 0 <= i < |rows| ==> rows[i].omitted)
  }

  /** Bytes since the omitted start are those in the rows that count plus those of the open interval. */
  ghost predicate Balanced(st: Stream, omitting: bool) {
    && st.bytesSentOmit <= st.bytesSent
    && (st.sender ==> st.bytesSent - st.bytesSentOmit == RowBytes(st.rows, omitting) + st.sentThisInterval)
    && (!st.sender ==> st.bytesReceived == RowBytes(st.rows, omitting) + st.receivedThisInterval)
    && OmittedFirst(st.rows, omitting)
  }

  lemma RowBytesNext(rows: seq<Interval>, row: Interval, all: bool)
    ensures RowBytes(rows + [row], all) == RowBytes(rows, all) + if all || !row.omitted then row.bytes else 0
  {
    assert (rows + [row])[..|rows|] == rows;
  }

  lemma {:induction false} NothingCounts(rows: seq<Interval>)
    requires OmittedFirst(rows, true)
    ensures RowBytes(rows, false) == 0
  {
    if rows != [] {
      NothingCounts(rows[..|rows| - 1]);
    }
  }

  lemma FreshBalances(st: Stream, omitting: bool)
    requires Fresh(st)
    ensures Balanced(st, omitting) && Telescopes(st)
  {
  }

  lemma SentBalances(st: Stream, r: nat, omitting: bool)
    requires Balanced(st, omitting) && st.sender
    ensures Balanced(Sent(Stamped(st), r), omitting) && Balanced(Stamped(st), omitting)
  {
  }

  lemma GotBalances(st: Stream, r: nat, pcount: nat, omitting: bool)
    requires Balanced(st, omitting) && !st.sender
    ensures Balanced(Got(st, r, pcount), omitting)
  {
  }

  lemma RecordedBalances(st: Stream, omitting: bool)
    requires Balanced(st, omitting)
    ensures Balanced(Recorded(st, omitting), omitting)
  {
    var row := Recorded(st, omitting).rows[|st.rows|];
    RowBytesNext(st.rows, row, omitting);
    hide RowBytes, LastTotal;
  }

  /** The end of the omitted start: from here on only new rows count. */
  lemma RestartedBalances(st: Stream)
    requires Balanced(st, true)
    ensures Balanced(Restarted(st), false)
  {
    NothingCounts(st.rows);
  }

  // ---------------------------------------------------------------------------------------------
  // Packets

  function SumOf(rows: seq<Interval>, all: bool): Figures {
    if rows == [] then NOTHING
    else
      var last := rows[|rows| - 1];
      Plus(SumOf(rows[..|rows| - 1], all), if all || !last.omitted then last.figures else NOTHING)
  }

  /** The running totals at the last omitted row. */
  function OmittedTotal(rows: seq<Interval>): Figures {
    if rows == [] then NOTHING
    else if rows[|rows| - 1].omitted then rows[|rows| - 1].total
    else OmittedTotal(rows[..|rows| - 1])
  }

  /** The rows add up to the running total, and those that count to what came after the last omitted row. */
  ghost predicate Telescopes(st: Stream) {
    && SumOf(st.rows, true) == LastTotal(st.rows)
    && SumOf(st.rows, false) == Minus(LastTotal(st.rows), OmittedTotal(st.rows))
  }

  lemma SumNext(rows: seq<Interval>, row: Interval)
    ensures SumOf(rows + [row], true) == Plus(SumOf(rows, true), row.figures)
    ensures SumOf(rows + [row], false) == Plus(SumOf(rows, false), if row.omitted then NOTHING else row.figures)
    ensures LastTotal(rows + [row]) == row.total
    ensures OmittedTotal(rows + [row]) == if row.omitted then row.total else OmittedTotal(rows)
  {
    assert (rows + [row])[..|rows|] == rows;
  }

  lemma {:induction false} OmittedSoFar(rows: seq<Interval>)
    requires OmittedFirst(rows, true)
    ensures OmittedTotal(rows) == LastTotal(rows)
  {
  }

  lemma RecordedTelescopes(st: Stream, omitting: bool)
    requires Telescopes(st) && OmittedFirst(st.rows, omitting)
    ensures Telescopes(Recorded(st, omitting))
    ensures st.udp ==> SumOf(Recorded(st, omitting).rows, true) == FiguresOf(st.counters)
  {
    var total := if st.udp then FiguresOf(st.counters) else NOTHING;
    var last := LastTotal(st.rows);
    var bytes := if st.sender then st.sentThisInterval else st.receivedThisInterval;
    var row := Interval(bytes, omitting, Minus(total, last), total);
    assert Recorded(st, omitting).rows == st.rows + [row];
    SumNext(st.rows, row);
    Bridged(OmittedTotal(st.rows), last, total);
    if omitting {
      OmittedSoFar(st.rows);
    }
    hide SumOf, OmittedTotal, LastTotal, Recorded, Plus, Minus, FiguresOf, OmittedFirst;
  }

  lemma Bridged(a: Figures, b: Figures, c: Figures)
    ensures Plus(b, Minus(c, b)) == c && Plus(Minus(b, a), Minus(c, b)) == Minus(c, a) && Minus(a, a) == NOTHING
    ensures Plus(Minus(a, b), NOTHING) == Minus(a, b)
  {
  }

  /** What the final summary reports: everything after the omitted start. */
  function Summary(st: Stream): Figures { Minus(FiguresOf(st.counters), FiguresOf(st.omittedCounters)) }

  /** The summary starts from nothing at the end of the omitted start, in all three figures. */
  lemma SummaryStartsOver(st: Stream)
    ensures Summary(Restarted(st)) == NOTHING
  {
  }

  /** The summary of a stream that started over is what it has counted since. */
  lemma SummaryIsGrowth(earlier: Stream, later: Stream)
    requires later.omittedCounters == Restarted(earlier).omittedCounters
    ensures Summary(later) == Minus(FiguresOf(later.counters), FiguresOf(earlier.counters))
  {
  }

  /** The rows that count, and what has come since the last row. */
  function Counting(st: Stream): Figures {
    Plus(SumOf(st.rows, false), Minus(FiguresOf(st.counters), LastTotal(st.rows)))
  }

  /**
   * The rows that count agree with the summary exactly when nothing came between the last omitted
   * row and the end of the omitted start: the reset closes the byte interval but not the packet one.
   */
  lemma RowsAgreeWithSummary(st: Stream)
    requires Telescopes(st)
    ensures Counting(st) == Summary(st) <==> FiguresOf(st.omittedCounters) == OmittedTotal(st.rows)
    ensures Minus(Counting(st), Summary(st)) == Minus(FiguresOf(st.omittedCounters), OmittedTotal(st.rows))
  {
    hide SumOf, OmittedTotal, LastTotal;
  }

  /** A packet sent before the first row of the omitted start shows up in the rows that count. */
  lemma OmittedPacketIsReported(st: Stream, r: nat)
    requires Fresh(st) && st.udp && st.sender
    ensures var t := Restarted(Sent(Stamped(st), r));
      Telescopes(t) && Counting(t) != Summary(t)
  {
    var t := Restarted(Sent(Stamped(st), r));
    assert t.omittedCounters.packetCount == 1 && t.rows == [];
    RowsAgreeWithSummary(t);
    hide Restarted, Sent, Stamped;
  }

  /** A packet that arrives: its size and its number. */
  datatype Packet = Packet(size: nat, number: nat)

  /** A stream after these packets, in this order. */
  function GotAll(st: Stream, ps: seq<Packet>): Stream {
    if ps == [] then st
    else
      var last := ps[|ps| - 1];
      Got(GotAll(st, ps[..|ps| - 1]), last.size, last.number)
  }

  function Numbers(ps: seq<Packet>): seq<nat> {
    if ps == [] then [] else Numbers(ps[..|ps| - 1]) + [ps[|ps| - 1].number]
  }

  function TotalSize(ps: seq<Packet>): nat {
    if ps == [] then 0 else TotalSize(ps[..|ps| - 1]) + ps[|ps| - 1].size
  }

  /** A UDP receiver counts its packets as the sequence-number accounting says, and all their bytes. */
  lemma {:induction false} ReceiverCounts(st: Stream, ps: seq<Packet>)
    requires Fresh(st) && st.udp && forall i :: 0 <= i < |ps| ==> ps[i].size > 0
    ensures GotAll(st, ps).udp && GotAll(st, ps).counters == Tally(Numbers(ps))
    ensures GotAll(st, ps).bytesReceived == TotalSize(ps)
  {
    if ps != [] {
      var init := ps[..|ps| - 1];
      ReceiverCounts(st, init);
      TallyNext(Numbers(init), ps[|ps| - 1].number);
      hide Tally;
    }
  }
}
