/** Send scheduling: pacing, multisend and burst rounds, block limits, and the totals of a test. */
module Sending {
  import opened Accounting

  datatype Settings = Settings(rate: nat, burst: nat, blksize: nat, bytes: nat, blocks: nat, multisend: nat)

  const NET_SOFTERROR := -1

  /** Bits times a million: rates are per second, times in microseconds. */
  const MICRO: nat := 8_000_000

  // ---------------------------------------------------------------------------------------------
  // Pacing

  /** `iperf_check_throttle`: bits per second since the fixed start, rounded down, against the rate. */
  function Throttled(s: Settings, st: Stream, now: nat): Stream
    requires now > st.startFixed
  {
    st.(green := MICRO * st.bytesSent / (now - st.startFixed) < s.rate)
  }

  /** What the rate allows up to now. */
  function Allowance(s: Settings, st: Stream, now: nat): int { s.rate * (now - st.startFixed) }

  /** `k` blocks. */
  function Blocks(s: Settings, k: nat): nat { MICRO * (s.blksize * k) }

  function Rounds(s: Settings): nat { if s.burst > 1 then s.burst else 1 }

  /** The pacing bound. */
  predicate Bounded(s: Settings, st: Stream, now: nat) {
    MICRO * st.bytesSent <= Allowance(s, st, now) + Blocks(s, Rounds(s))
  }

  /** A stream with a green light is at most `k` blocks ahead. */
  predicate Within(s: Settings, st: Stream, now: nat, k: nat) {
    st.green ==> MICRO * st.bytesSent <= Allowance(s, st, now) + Blocks(s, k)
  }

  lemma QuotientBelow(a: nat, e: nat, r: nat)
    requires e > 0
    ensures a / e < r <==> a < r * e
  {
    var q, m := a / e, a % e;
    assert a == q * e + m;
    if q < r {
      assert (q + 1) * e <= r * e;
    } else {
      assert r * e <= q * e;
    }
  }

  /** A green light after the check means strictly below the rate, a red one means the rate is reached. */
  lemma GreenIsBelowRate(s: Settings, st: Stream, now: nat)
    requires now > st.startFixed
    ensures Throttled(s, st, now).green <==> MICRO * st.bytesSent < Allowance(s, st, now)
  {
    QuotientBelow(MICRO * st.bytesSent, now - st.startFixed, s.rate);
  }

  lemma AllowanceGrows(s: Settings, st: Stream, now: nat, later: nat)
    requires now <= later
    ensures Allowance(s, st, now) <= Allowance(s, st, later)
  {
    assert s.rate * (now - st.startFixed) <= s.rate * (later - st.startFixed);
  }

  lemma BlocksGrow(s: Settings, j: nat, k: nat)
    requires j <= k
    ensures Blocks(s, j) <= Blocks(s, k) && Blocks(s, j + 1) == Blocks(s, j) + MICRO * s.blksize
    ensures Blocks(s, 0) == 0
  {
    assert s.blksize * j <= s.blksize * k;
    assert s.blksize * (j + 1) == s.blksize * j + s.blksize;
  }

  /** One block more. */
  lemma SendAdvances(s: Settings, st: Stream, now: nat, k: nat, r: nat)
    requires st.green && Within(s, st, now, k) && k < Rounds(s) && r <= s.blksize
    ensures Within(s, Sent(Stamped(st), r), now, k + 1) && Bounded(s, Sent(Stamped(st), r), now)
  {
    BlocksGrow(s, k, Rounds(s));
    BlocksGrow(s, k + 1, Rounds(s));
    assert Allowance(s, Sent(Stamped(st), r), now) == Allowance(s, st, now);
    hide Allowance, Blocks;
  }

  lemma ThrottleResets(s: Settings, st: Stream, now: nat)
    requires now > st.startFixed
    ensures Within(s, Throttled(s, st, now), now, 0)
    ensures Bounded(s, st, now) ==> Bounded(s, Throttled(s, st, now), now)
  {
    GreenIsBelowRate(s, st, now);
    BlocksGrow(s, 0, 0);
    assert Allowance(s, Throttled(s, st, now), now) == Allowance(s, st, now);
    hide Allowance, Blocks;
  }

  lemma WaitingHelps(s: Settings, st: Stream, now: nat, later: nat, k: nat)
    requires now <= later
    ensures Bounded(s, st, now) ==> Bounded(s, st, later)
    ensures Within(s, st, now, k) ==> Within(s, st, later, k) && Within(s, st, later, k + 1)
  {
    AllowanceGrows(s, st, now, later);
    BlocksGrow(s, k, k + 1);
    hide Allowance, Blocks;
  }

  // ---------------------------------------------------------------------------------------------
  // Totals

  /** Bytes a sender has sent since the omitted start. */
  function Net(st: Stream): int { if st.sender then st.bytesSent - st.bytesSentOmit else 0 }

  function NetSent(ss: seq<Stream>): int { if ss == [] then 0 else Net(ss[0]) + NetSent(ss[1..]) }

  lemma {:induction false} NetSentUpdate(ss: seq<Stream>, i: nat, st: Stream)
    requires i < |ss|
    ensures NetSent(ss[i := st]) == NetSent(ss) - Net(ss[i]) + Net(st)
  {
    if i == 0 {
      assert ss[0 := st][1..] == ss[1..];
    } else {
      assert ss[i := st][1..] == ss[1..][i - 1 := st];
      NetSentUpdate(ss[1..], i - 1, st);
    }
  }

  /** Bytes that all streams have received. */
  function Taken(ss: seq<Stream>): int { if ss == [] then 0 else ss[0].bytesReceived + Taken(ss[1..]) }

  lemma {:induction false} TakenUpdate(ss: seq<Stream>, i: nat, st: Stream)
    requires i < |ss|
    ensures Taken(ss[i := st]) == Taken(ss) - ss[i].bytesReceived + st.bytesReceived
  {
    if i == 0 {
      assert ss[0 := st][1..] == ss[1..];
    } else {
      assert ss[i := st][1..] == ss[1..][i - 1 := st];
      TakenUpdate(ss[1..], i - 1, st);
    }
  }

  lemma {:induction false} NetSentZero(ss: seq<Stream>)
    requires forall i :: 0 <= i < |ss| ==> Net(ss[i]) == 0
    ensures NetSent(ss) == 0
  {
    if ss != [] {
      NetSentZero(ss[1..]);
    }
  }

  // ---------------------------------------------------------------------------------------------
  // What holds of a stream at every point of a test

  /** Books balanced, rows telescoping and, if there is a rate, pacing kept: `k` blocks ahead at most while green. */
  ghost predicate Sound(s: Settings, st: Stream, omitting: bool, now: nat, k: nat) {
    && Balanced(st, omitting) && Telescopes(st) && st.startFixed < now
    && (s.rate != 0 ==> Bounded(s, st, now) && Within(s, st, now, k))
  }

  /** The streams before position `i` are at most `lo` blocks ahead, those from it on at most `hi`. */
  ghost predicate AllSound(s: Settings, ss: seq<Stream>, omitting: bool, now: nat, i: nat, lo: nat, hi: nat) {
    forall j :: 0 <= j < |ss| ==> Sound(s, ss[j], omitting, now, if j < i then lo else hi)
  }

  /** How far ahead a green stream may be after its turn in a round: pacing without bursts checks at once. */
  function AfterTurn(s: Settings, k: nat): nat { if s.burst == 0 then k else k + 1 }

  /** A stream whose write has succeeded. */
  function Dispatched(s: Settings, st: Stream, r: nat, now: nat): Stream
    requires now > st.startFixed
  {
    var t := Sent(Stamped(st), r);
    if s.rate != 0 && s.burst == 0 then Throttled(s, t, now) else t
  }

  lemma ThrottledIsSound(s: Settings, st: Stream, omitting: bool, now: nat, k: nat)
    requires Sound(s, st, omitting, now, k)
    ensures Sound(s, Throttled(s, st, now), omitting, now, 0)
  {
    ThrottleResets(s, st, now);
    var t := Throttled(s, st, now);
    assert Balanced(t, omitting) && Telescopes(t);
    hide Balanced, Telescopes, Bounded, Within, Throttled;
  }

  lemma DispatchedIsSound(s: Settings, st: Stream, omitting: bool, now: nat, k: nat, r: nat)
    requires Sound(s, st, omitting, now, k) && st.green && st.sender && k < Rounds(s) && r <= s.blksize
    requires s.burst == 0 ==> k == 0
    ensures Sound(s, Dispatched(s, st, r, now), omitting, now, AfterTurn(s, k))
    ensures Net(Dispatched(s, st, r, now)) == Net(st) + r
  {
    var t := Sent(Stamped(st), r);
    SentBalances(st, r, omitting);
    assert Telescopes(t);
    if s.rate != 0 {
      SendAdvances(s, st, now, k, r);
      ThrottledIsSound(s, t, omitting, now, k + 1);
    }
    assert Net(t) == Net(st) + r;
    hide Balanced, Telescopes, Bounded, Within;
  }

  lemma StampedIsSound(s: Settings, st: Stream, omitting: bool, now: nat, k: nat)
    requires Sound(s, st, omitting, now, k) && st.sender
    ensures Sound(s, Stamped(st), omitting, now, k) && Net(Stamped(st)) == Net(st)
  {
    SentBalances(st, 0, omitting);
    assert Telescopes(Stamped(st));
    hide Balanced, Telescopes;
  }

  lemma LaterIsSound(s: Settings, st: Stream, omitting: bool, now: nat, later: nat, k: nat)
    requires Sound(s, st, omitting, now, k) && now <= later
    ensures Sound(s, st, omitting, later, k) && Sound(s, st, omitting, later, k + 1)
  {
    WaitingHelps(s, st, now, later, k);
    hide Balanced, Telescopes, Bounded, Within;
  }

  /** One stream has had its turn. */
  lemma TurnTaken(s: Settings, ss: seq<Stream>, omitting: bool, now: nat, i: nat, lo: nat, hi: nat, st: Stream)
    requires AllSound(s, ss, omitting, now, i, lo, hi) && i < |ss| && Sound(s, st, omitting, now, lo)
    ensures AllSound(s, ss[i := st], omitting, now, i + 1, lo, hi)
  {
    hide Sound;
  }

  /** The rest of the streams keep their lead; a later clock and a wider margin do no harm. */
  lemma RestIsSound(s: Settings, ss: seq<Stream>, omitting: bool, now: nat, later: nat, i: nat, k: nat, hi: nat)
    requires AllSound(s, ss, omitting, now, i, hi, k) && now <= later && k <= hi <= k + 1
    ensures forall n, lo :: n == 0 || lo == hi ==> AllSound(s, ss, omitting, later, n, lo, hi)
  {
    forall j | 0 <= j < |ss| ensures Sound(s, ss[j], omitting, later, hi) {
      LaterIsSound(s, ss[j], omitting, now, later, if j < i then hi else k);
    }
    hide Sound;
  }

  /** Every stream is sound, as far ahead as its place in the round says, and the test total is their sum. */
  ghost predicate Good(s: Settings, ss: seq<Stream>, total: int, omitting: bool, now: nat, i: nat, lo: nat, hi: nat) {
    total == NetSent(ss) && AllSound(s, ss, omitting, now, i, lo, hi)
  }

  /** A turn that changes one stream and adds what it sent to the total. */
  lemma TurnIsGood(
    s: Settings, ss: seq<Stream>, total: int, omitting: bool, now: nat, i: nat, lo: nat, hi: nat, st: Stream, r: nat)
    requires Good(s, ss, total, omitting, now, i, lo, hi) && i < |ss|
    requires Sound(s, st, omitting, now, lo) && Net(st) == Net(ss[i]) + r
    ensures Good(s, ss[i := st], total + r, omitting, now, i + 1, lo, hi)
  {
    TurnTaken(s, ss, omitting, now, i, lo, hi, st);
    NetSentUpdate(ss, i, st);
    hide AllSound, Sound, Net, NetSent;
  }

  /** A failed write leaves the stream waiting for its turn. */
  lemma FailureIsGood(s: Settings, ss: seq<Stream>, total: int, omitting: bool, now: nat, i: nat, lo: nat, hi: nat)
    requires Good(s, ss, total, omitting, now, i, lo, hi) && i < |ss| && ss[i].sender
    ensures Good(s, ss[i := Stamped(ss[i])], total, omitting, now, i, lo, hi)
  {
    StampedIsSound(s, ss[i], omitting, now, hi);
    NetSentUpdate(ss, i, Stamped(ss[i]));
    hide Sound, Net, NetSent, Stamped;
  }

  lemma RestIsGood(
    s: Settings, ss: seq<Stream>, total: int, omitting: bool, now: nat, later: nat, i: nat, k: nat, hi: nat)
    requires Good(s, ss, total, omitting, now, i, hi, k) && now <= later && k <= hi <= k + 1
    ensures forall n, lo :: n == 0 || lo == hi ==> Good(s, ss, total, omitting, later, n, lo, hi)
  {
    RestIsSound(s, ss, omitting, now, later, i, k, hi);
    hide AllSound, NetSent;
  }

  /** The omitted figures of the streams are these. */
  ghost predicate MarkedBy(ss: seq<Stream>, marks: seq<Figures>) {
    |marks| == |ss| && forall j :: 0 <= j < |ss| ==> FiguresOf(ss[j].omittedCounters) == marks[j]
  }

  /** What the streams have counted. */
  ghost function Counts(ss: seq<Stream>): seq<Figures> {
    seq(|ss|, j requires 0 <= j < |ss| => FiguresOf(ss[j].counters))
  }

  lemma RestartIsMarked(ss: seq<Stream>, ts: seq<Stream>)
    requires |ts| == |ss| && forall j :: 0 <= j < |ts| ==> ts[j] == Restarted(ss[j])
    ensures MarkedBy(ts, Counts(ss))
  {
  }

  lemma MarkKept(ss: seq<Stream>, marks: seq<Figures>, i: nat, st: Stream)
    requires MarkedBy(ss, marks) && i < |ss| && st.omittedCounters == ss[i].omittedCounters
    ensures MarkedBy(ss[i := st], marks)
  {
  }

  /** Nothing but the end of the omitted start moves the mark of a stream. */
  lemma TrafficKeepsMark(s: Settings, st: Stream, r: nat, pcount: nat, omitting: bool, now: nat)
    ensures Stamped(st).omittedCounters == st.omittedCounters == Got(st, r, pcount).omittedCounters
    ensures Recorded(st, omitting).omittedCounters == st.omittedCounters
    ensures now > st.startFixed ==> Dispatched(s, st, r, now).omittedCounters == st.omittedCounters
    ensures now > st.startFixed ==> Throttled(s, st, now).omittedCounters == st.omittedCounters
  {
  }

  /** Streams that a round of `iperf_send` writes to. */
  predicate Eligible(st: Stream, i: int, ready: set<nat>) { st.green && st.sender && i in ready }

  /** A stream after a write with result `r`. */
  function Written(s: Settings, st: Stream, r: int, now: nat): Stream
    requires now > st.startFixed
  {
    if r < 0 then Stamped(st) else Dispatched(s, st, r, now)
  }

  /** How many of the first `n` streams a round writes to. */
  function Eligibles(ss: seq<Stream>, ready: set<nat>, n: nat): nat
    requires n <= |ss|
  {
    if n == 0 then 0 else Eligibles(ss, ready, n - 1) + if Eligible(ss[n - 1], n - 1, ready) then 1 else 0
  }

  lemma EligiblesNext(ss: seq<Stream>, ready: set<nat>, n: nat)
    requires n <= |ss|
    ensures Eligibles(ss, ready, 0) == 0
    ensures n < |ss| ==>
      Eligibles(ss, ready, n + 1) == Eligibles(ss, ready, n) + if Eligible(ss[n], n, ready) then 1 else 0
  {
  }

  /** The totals after `i` streams of a round, from those before it: a reached limit has ended the round. */
  ghost predicate InRound(s: Settings, multisend: nat, i: nat, blocks: nat, blocks': nat, bytes: nat, bytes': nat) {
    && blocks <= blocks' <= blocks + i && bytes' <= bytes + Volume(s, i)
    && (s.blocks != 0 && multisend > 1 ==> blocks' == blocks || blocks' < s.blocks)
    && (s.bytes != 0 && multisend > 1 ==> bytes' == bytes || bytes' < s.bytes)
  }

  /** The totals after a round over `n` streams. */
  ghost predicate RoundEnded(s: Settings, multisend: nat, n: nat, blocks: nat, blocks': nat, bytes: nat, bytes': nat) {
    && blocks' <= blocks + n && bytes' <= bytes + Volume(s, n)
    && (s.blocks != 0 && multisend > 1 ==> blocks' <= Max(blocks + 1, s.blocks))
    && (s.bytes != 0 && multisend > 1 ==> bytes' < Max(bytes + 1, s.bytes) + s.blksize)
  }

  lemma RoundStarts(s: Settings, multisend: nat, blocks: nat, bytes: nat)
    ensures InRound(s, multisend, 0, blocks, blocks, bytes, bytes)
  {
    VolumeGrows(s, 0, 0);
  }

  /** The next stream, with or without a block of `r` bytes. */
  lemma RoundGoesOn(s: Settings, multisend: nat, i: nat, blocks: nat, blocks': nat, bytes: nat, bytes': nat, r: nat)
    requires InRound(s, multisend, i, blocks, blocks', bytes, bytes') && r <= s.blksize
    ensures InRound(s, multisend, i + 1, blocks, blocks', bytes, bytes')
    ensures (s.blocks != 0 && multisend > 1 ==> blocks' + 1 < s.blocks)
      && (s.bytes != 0 && multisend > 1 ==> bytes' + r < s.bytes)
      ==> InRound(s, multisend, i + 1, blocks, blocks' + 1, bytes, bytes' + r)
  {
    VolumeGrows(s, i, i + 1);
    hide Volume;
  }

  lemma RoundEnds(s: Settings, multisend: nat, i: nat, n: nat, blocks: nat, blocks': nat, bytes: nat, bytes': nat)
    requires InRound(s, multisend, i, blocks, blocks', bytes, bytes') && i <= n
    ensures RoundEnded(s, multisend, n, blocks, blocks', bytes, bytes')
  {
    VolumeGrows(s, i, n);
    hide Volume;
  }

  lemma RoundTurnEnds(
    s: Settings, multisend: nat, i: nat, n: nat, blocks: nat, blocks': nat, bytes: nat, bytes': nat, r: nat)
    requires InRound(s, multisend, i, blocks, blocks', bytes, bytes') && i < n && r <= s.blksize
    ensures RoundEnded(s, multisend, n, blocks, blocks' + 1, bytes, bytes' + r)
  {
    VolumeGrows(s, i, n);
    VolumeGrows(s, i + 1, n);
    hide Volume;
  }

  /**
   * What a round does: every eligible stream before `stop` is written to once, `sizes[j]` bytes to
   * stream `j`, and none after it. If a write failed, it was the one to the stream at `stop`.
   */
  ghost predicate Served(
    s: Settings, before: seq<Stream>, after: seq<Stream>, ready: set<nat>, now: nat,
    stop: nat, sizes: seq<nat>, failed: bool)
  {
    && |after| == |before| == |sizes| && stop <= |before|
    && (failed ==> stop < |before| && Eligible(before[stop], stop, ready))
    && forall j :: 0 <= j < |before| ==>
      ServedOne(
        s, before[j], after[j], now, Eligible(before[j], j, ready) && j < stop, sizes[j], failed && j == stop)
  }

  ghost predicate ServedOne(s: Settings, st: Stream, t: Stream, now: nat, served: bool, size: nat, failed: bool) {
    if served then st.startFixed < now && size <= s.blksize && t == Dispatched(s, st, size, now)
    else t == if failed then Stamped(st) else st
  }

  lemma NoneServed(s: Settings, ss: seq<Stream>, ready: set<nat>, now: nat)
    ensures Served(s, ss, ss, ready, now, 0, seq(|ss|, _ => 0), false)
  {
  }

  lemma NextServed(
    s: Settings, before: seq<Stream>, after: seq<Stream>, ready: set<nat>, now: nat, i: nat, sizes: seq<nat>,
    r: int, st: Stream)
    requires Served(s, before, after, ready, now, i, sizes, false) && i < |before| && Eligible(before[i], i, ready)
    requires before[i].startFixed < now && r <= s.blksize && st == Written(s, before[i], r, now)
    ensures r < 0 ==> Served(s, before, after[i := st], ready, now, i, sizes, true)
    ensures r >= 0 ==> Served(s, before, after[i := st], ready, now, i + 1, sizes[i := r], false)
  {
    hide Dispatched, Stamped, Eligible;
  }

  lemma NextSkipped(
    s: Settings, before: seq<Stream>, after: seq<Stream>, ready: set<nat>, now: nat, i: nat, sizes: seq<nat>)
    requires Served(s, before, after, ready, now, i, sizes, false) && i < |before| && !Eligible(before[i], i, ready)
    ensures Served(s, before, after, ready, now, i + 1, sizes, false)
  {
    hide Dispatched, Stamped, Eligible;
  }

  /** Who is served: the streams that are ready, send and have a green light. */
  lemma ServedAre(
    s: Settings, before: seq<Stream>, after: seq<Stream>, ready: set<nat>, now: nat, stop: nat, sizes: seq<nat>,
    failed: bool)
    requires Served(s, before, after, ready, now, stop, sizes, failed)
    ensures |after| == |before| == |sizes| && stop <= |before|
    ensures forall j :: 0 <= j < stop && j in ready && before[j].sender && before[j].green ==>
      before[j].startFixed < now && after[j] == Dispatched(s, before[j], sizes[j], now)
    ensures forall j :: 0 <= j < |before| && (j !in ready || !before[j].sender || !before[j].green) ==>
      after[j] == before[j]
  {
    hide Dispatched, Stamped;
  }

  lemma NotYetServed(
    s: Settings, before: seq<Stream>, after: seq<Stream>, ready: set<nat>, now: nat, i: nat, sizes: seq<nat>)
    requires Served(s, before, after, ready, now, i, sizes, false) && i < |before|
    ensures |after| == |before| && after[i] == before[i]
  {
    hide Dispatched, Stamped, Eligible;
  }

  // ---------------------------------------------------------------------------------------------
  // A whole call

  /** What one round did: when, how far it got, what it wrote, its result, and how it left the streams. */
  datatype RoundRecord = RoundRecord(
    now: nat, stop: nat, sizes: seq<nat>, r: int, streams: seq<Stream>, blocks: nat)

  function StreamsBefore(before: seq<Stream>, trace: seq<RoundRecord>, k: nat): seq<Stream>
    requires k <= |trace|
  {
    if k == 0 then before else trace[k - 1].streams
  }

  function BlocksBefore(blocks: nat, trace: seq<RoundRecord>, k: nat): nat
    requires k <= |trace|
  {
    if k == 0 then blocks else trace[k - 1].blocks
  }

  /** A limit has been reached with `left` rounds to go, this one included. */
  predicate LimitReached(s: Settings, left: nat, blocks: nat, bytes: int) {
    left > 1 && ((s.bytes != 0 && bytes >= s.bytes) || (s.blocks != 0 && blocks >= s.blocks))
  }

  /** A round with `left` rounds to go: it goes over all streams unless a write fails or a limit is reached. */
  ghost predicate IsRound(
    s: Settings, ready: set<nat>, left: nat, before: seq<Stream>, blocks: nat, rec: RoundRecord)
  {
    && Served(s, before, rec.streams, ready, rec.now, rec.stop, rec.sizes, rec.r < 0) && rec.stop <= |before|
    && rec.blocks == blocks + Eligibles(before, ready, rec.stop)
    && (rec.stop < |before| && rec.r >= 0 ==>
          rec.blocks > blocks && LimitReached(s, left, rec.blocks, NetSent(rec.streams)))
  }

  /** After this round there may be another one. */
  predicate GoesOn(blocks: nat, rec: RoundRecord) { rec.blocks > blocks && (rec.r >= 0 || rec.r == NET_SOFTERROR) }

  ghost predicate RoundAt(
    s: Settings, ready: set<nat>, m: nat, before: seq<Stream>, blocks: nat, trace: seq<RoundRecord>, k: int)
    requires 0 <= k < |trace| <= m
  {
    IsRound(s, ready, m - k, StreamsBefore(before, trace, k), BlocksBefore(blocks, trace, k), trace[k])
  }

  predicate GoesOnAt(blocks: nat, trace: seq<RoundRecord>, k: int)
    requires 0 <= k < |trace|
  {
    GoesOn(BlocksBefore(blocks, trace, k), trace[k])
  }

  /** The rounds of a call: as many as `m`, unless one of them wrote nothing or failed for good. */
  ghost predicate IsCall(
    s: Settings, ready: set<nat>, m: nat, before: seq<Stream>, blocks: nat, trace: seq<RoundRecord>)
  {
    && |trace| <= m
    && (forall k :: 0 <= k < |trace| ==> RoundAt(s, ready, m, before, blocks, trace, k))
    && (forall k :: 0 <= k < |trace| - 1 ==> GoesOnAt(blocks, trace, k))
    && (|trace| < m ==> trace != [] && !GoesOnAt(blocks, trace, |trace| - 1))
  }

  /** The rounds so far, all of which let the next one follow. */
  ghost predicate InCall(
    s: Settings, ready: set<nat>, m: nat, before: seq<Stream>, blocks: nat, trace: seq<RoundRecord>)
  {
    && |trace| <= m
    && (forall k :: 0 <= k < |trace| ==> RoundAt(s, ready, m, before, blocks, trace, k))
    && (forall k :: 0 <= k < |trace| ==> GoesOnAt(blocks, trace, k))
  }

  lemma NextRound(
    s: Settings, ready: set<nat>, m: nat, before: seq<Stream>, blocks: nat, trace: seq<RoundRecord>, rec: RoundRecord)
    requires InCall(s, ready, m, before, blocks, trace) && |trace| < m
    requires var k := |trace|;
      IsRound(s, ready, m - k, StreamsBefore(before, trace, k), BlocksBefore(blocks, trace, k), rec)
    ensures GoesOn(BlocksBefore(blocks, trace, |trace|), rec) ==> InCall(s, ready, m, before, blocks, trace + [rec])
    ensures !GoesOn(BlocksBefore(blocks, trace, |trace|), rec) || |trace| + 1 == m ==>
      IsCall(s, ready, m, before, blocks, trace + [rec])
  {
    hide IsRound, GoesOn, RoundAt, GoesOnAt;
    var t := trace + [rec];
    forall k | 0 <= k < |trace|
      ensures RoundAt(s, ready, m, before, blocks, t, k) && GoesOnAt(blocks, t, k)
    {
      EarlierRound(s, ready, m, before, blocks, trace, rec, k);
    }
    LastRound(s, ready, m, before, blocks, trace, rec);
  }

  lemma EarlierRound(
    s: Settings, ready: set<nat>, m: nat, before: seq<Stream>, blocks: nat, trace: seq<RoundRecord>, rec: RoundRecord,
    k: nat)
    requires k < |trace| < m
    ensures RoundAt(s, ready, m, before, blocks, trace + [rec], k) == RoundAt(s, ready, m, before, blocks, trace, k)
    ensures GoesOnAt(blocks, trace + [rec], k) == GoesOnAt(blocks, trace, k)
  {
    hide IsRound, GoesOn;
  }

  lemma LastRound(
    s: Settings, ready: set<nat>, m: nat, before: seq<Stream>, blocks: nat, trace: seq<RoundRecord>, rec: RoundRecord)
    requires |trace| < m
    ensures var k := |trace|;
      && RoundAt(s, ready, m, before, blocks, trace + [rec], k) ==
         IsRound(s, ready, m - k, StreamsBefore(before, trace, k), BlocksBefore(blocks, trace, k), rec)
      && GoesOnAt(blocks, trace + [rec], k) == GoesOn(BlocksBefore(blocks, trace, k), rec)
  {
    hide IsRound, GoesOn;
  }

  // ---------------------------------------------------------------------------------------------
  // A call without failures and limits

  /** The stream `t` is `st` after `n` blocks. */
  ghost predicate ServedTimes(s: Settings, st: Stream, t: Stream, n: nat)
    decreases n
  {
    if n == 0 then t == st
    else exists u, size: nat, now: nat ::
        ServedTimes(s, st, u, n - 1) && size <= s.blksize && u.startFixed < now && t == Dispatched(s, u, size, now)
  }

  /** A call that checks no light before its rounds are over. */
  predicate Unthrottled(s: Settings) { s.rate == 0 || s.burst != 0 }

  ghost predicate SameLights(before: seq<Stream>, after: seq<Stream>) {
    && |after| == |before|
    && forall j :: 0 <= j < |before| ==> after[j].green == before[j].green && after[j].sender == before[j].sender
  }

  lemma {:induction false} EligiblesSame(before: seq<Stream>, after: seq<Stream>, ready: set<nat>, n: nat)
    requires SameLights(before, after) && n <= |before|
    ensures Eligibles(after, ready, n) == Eligibles(before, ready, n)
  {
    if n > 0 {
      EligiblesSame(before, after, ready, n - 1);
    }
  }

  /** Every stream after `k` full rounds. */
  ghost predicate AllServed(s: Settings, ready: set<nat>, before: seq<Stream>, after: seq<Stream>, k: nat) {
    && |after| == |before|
    && forall j :: 0 <= j < |before| ==>
      ServedTimes(s, before[j], after[j], if Eligible(before[j], j, ready) then k else 0)
  }

  ghost predicate Smooth(before: seq<Stream>, trace: seq<RoundRecord>) {
    forall k :: 0 <= k < |trace| ==> trace[k].r >= 0 && trace[k].stop == |before|
  }

  lemma FullRound(
    s: Settings, ready: set<nat>, left: nat, before: seq<Stream>, mid: seq<Stream>, blocks: nat, k: nat,
    rec: RoundRecord)
    requires IsRound(s, ready, left, mid, blocks, rec) && rec.r >= 0 && rec.stop == |mid|
    requires AllServed(s, ready, before, mid, k) && SameLights(before, mid)
    ensures AllServed(s, ready, before, rec.streams, k + 1) && (Unthrottled(s) ==> SameLights(before, rec.streams))
    ensures rec.blocks == blocks + Eligibles(before, ready, |before|)
  {
    EligiblesSame(before, mid, ready, |before|);
    hide Eligibles;
    forall j | 0 <= j < |before|
      ensures ServedTimes(s, before[j], rec.streams[j], if Eligible(before[j], j, ready) then k + 1 else 0)
      ensures Unthrottled(s) ==> rec.streams[j].green == mid[j].green && rec.streams[j].sender == mid[j].sender
    {
      var served := Eligible(mid[j], j, ready) && j < rec.stop;
      assert ServedOne(s, mid[j], rec.streams[j], rec.now, served, rec.sizes[j], rec.r < 0 && j == rec.stop);
      FullTurn(s, before[j], mid[j], rec.streams[j], rec.now, served, rec.sizes[j], k);
      hide ServedTimes, ServedOne, Dispatched;
    }
  }

  lemma FullTurn(s: Settings, st: Stream, u: Stream, t: Stream, now: nat, served: bool, size: nat, k: nat)
    requires ServedOne(s, u, t, now, served, size, false) && ServedTimes(s, st, u, if served then k else 0)
    ensures ServedTimes(s, st, t, if served then k + 1 else 0)
    ensures Unthrottled(s) ==> t.green == u.green && t.sender == u.sender
  {
    if served {
      assert t == Dispatched(s, u, size, now);
      assert ServedTimes(s, st, t, k + 1);
    }
  }

  lemma {:induction false} SmoothRounds(
    s: Settings, ready: set<nat>, m: nat, before: seq<Stream>, blocks: nat, trace: seq<RoundRecord>, k: nat)
    requires IsCall(s, ready, m, before, blocks, trace) && Smooth(before, trace) && k <= |trace|
    requires Unthrottled(s) || m <= 1
    ensures AllServed(s, ready, before, StreamsBefore(before, trace, k), k)
    ensures BlocksBefore(blocks, trace, k) == blocks + k * Eligibles(before, ready, |before|)
    ensures Unthrottled(s) || k == 0 ==> SameLights(before, StreamsBefore(before, trace, k))
  {
    hide Eligibles, IsRound, AllServed, SameLights;
    if k == 0 {
      NothingServed(s, ready, before);
    } else {
      SmoothRounds(s, ready, m, before, blocks, trace, k - 1);
      assert RoundAt(s, ready, m, before, blocks, trace, k - 1);
      var mid, b := StreamsBefore(before, trace, k - 1), BlocksBefore(blocks, trace, k - 1);
      AllServedSize(s, ready, before, mid, k - 1);
      FullRound(s, ready, m - (k - 1), before, mid, b, k - 1, trace[k - 1]);
      var e := Eligibles(before, ready, |before|);
      assert (k - 1) * e + e == k * e;
    }
  }

  lemma NothingServed(s: Settings, ready: set<nat>, before: seq<Stream>)
    ensures AllServed(s, ready, before, before, 0) && SameLights(before, before)
  {
  }

  lemma AllServedSize(s: Settings, ready: set<nat>, before: seq<Stream>, after: seq<Stream>, k: nat)
    requires AllServed(s, ready, before, after, k)
    ensures |after| == |before|
  {
  }

  /** If no write fails and no limit is reached, every eligible stream sends one block in each of the `m` rounds. */
  lemma SmoothCall(
    s: Settings, ready: set<nat>, before: seq<Stream>, blocks: nat, trace: seq<RoundRecord>)
    requires IsCall(s, ready, Multisend(s), before, blocks, trace) && Smooth(before, trace)
    requires Eligibles(before, ready, |before|) > 0
    ensures |trace| == Multisend(s)
    ensures |trace| == if s.burst != 0 then s.burst else if s.rate != 0 then 1 else s.multisend
    ensures AllServed(s, ready, before, StreamsBefore(before, trace, |trace|), Multisend(s))
    ensures BlocksBefore(blocks, trace, |trace|) == blocks + Multisend(s) * Eligibles(before, ready, |before|)
  {
    hide Eligibles, IsRound, AllServed, SameLights;
    var m, e, n := Multisend(s), Eligibles(before, ready, |before|), |trace|;
    SmoothRounds(s, ready, m, before, blocks, trace, n);
    if n > 0 {
      SmoothRounds(s, ready, m, before, blocks, trace, n - 1);
      assert (n - 1) * e + e == n * e;
      assert GoesOnAt(blocks, trace, n - 1);
    }
  }

  /** What `n` blocks mean for a stream. */
  lemma {:induction false} ServedMeans(s: Settings, st: Stream, t: Stream, n: nat)
    requires ServedTimes(s, st, t, n)
    ensures t.counters.packetCount == st.counters.packetCount + if st.udp then n else 0
    ensures t.udp == st.udp && st.bytesSent <= t.bytesSent <= st.bytesSent + Volume(s, n)
    decreases n
  {
    VolumeGrows(s, n, n);
    if n > 0 {
      var u, size: nat, now: nat :|
        ServedTimes(s, st, u, n - 1) && size <= s.blksize && u.startFixed < now && t == Dispatched(s, u, size, now);
      hide Volume, ServedTimes;
      ServedMeans(s, st, u, n - 1);
      VolumeGrows(s, n - 1, n);
      DispatchedMeans(s, u, size, now);
      hide Dispatched;
    }
  }

  lemma DispatchedMeans(s: Settings, st: Stream, size: nat, now: nat)
    requires now > st.startFixed
    ensures var t := Dispatched(s, st, size, now);
      && t.counters.packetCount == st.counters.packetCount + (if st.udp then 1 else 0)
      && t.bytesSent == st.bytesSent + size && t.udp == st.udp
  {
  }

  // ---------------------------------------------------------------------------------------------
  // Receiving

  /** Streams that `iperf_recv` reads from. */
  predicate Reads(st: Stream, i: int, ready: set<nat>) { i in ready && !st.sender }

  /**
   * Every stream to read from before `stop` has been read once: `sizes[j]` bytes from stream `j`, in
   * a packet with the number `numbers[j]`. Bytes that come when the test is over change no stream.
   */
  ghost predicate Read(
    before: seq<Stream>, after: seq<Stream>, ready: set<nat>, running: bool,
    stop: nat, sizes: seq<nat>, numbers: seq<nat>)
  {
    && |after| == |before| == |sizes| == |numbers| && stop <= |before|
    && forall j :: 0 <= j < |before| ==>
      after[j] ==
      if running && j < stop && Reads(before[j], j, ready) then Got(before[j], sizes[j], numbers[j]) else before[j]
  }

  function Readers(ss: seq<Stream>, ready: set<nat>, n: nat): nat
    requires n <= |ss|
  {
    if n == 0 then 0 else Readers(ss, ready, n - 1) + if Reads(ss[n - 1], n - 1, ready) then 1 else 0
  }

  function ReadBytes(ss: seq<Stream>, ready: set<nat>, sizes: seq<nat>, n: nat): nat
    requires n <= |ss| == |sizes|
  {
    if n == 0 then 0
    else ReadBytes(ss, ready, sizes, n - 1) + if Reads(ss[n - 1], n - 1, ready) then sizes[n - 1] else 0
  }

  lemma {:induction false} ReadBytesSame(ss: seq<Stream>, ready: set<nat>, sizes: seq<nat>, n: nat, i: nat, r: nat)
    requires n <= i < |ss| == |sizes|
    ensures ReadBytes(ss, ready, sizes[i := r], n) == ReadBytes(ss, ready, sizes, n)
  {
    if n > 0 {
      ReadBytesSame(ss, ready, sizes, n - 1, i, r);
    }
  }

  lemma NoneRead(ss: seq<Stream>, ready: set<nat>, running: bool, sizes: seq<nat>)
    requires |sizes| == |ss|
    ensures Read(ss, ss, ready, running, 0, sizes, sizes)
    ensures Readers(ss, ready, 0) == 0 == ReadBytes(ss, ready, sizes, 0)
  {
  }

  /** Who is read: the streams that are ready and receive. */
  lemma ReadAre(
    before: seq<Stream>, after: seq<Stream>, ready: set<nat>, running: bool, stop: nat, sizes: seq<nat>,
    numbers: seq<nat>)
    requires Read(before, after, ready, running, stop, sizes, numbers)
    ensures |after| == |before| == |sizes| == |numbers| && stop <= |before|
    ensures forall j :: 0 <= j < |before| && (j !in ready || before[j].sender) ==> after[j] == before[j]
    ensures running ==> forall j :: 0 <= j < stop && j in ready && !before[j].sender ==>
      after[j] == Got(before[j], sizes[j], numbers[j])
  {
    hide Got;
  }

  lemma NotYetRead(
    before: seq<Stream>, after: seq<Stream>, ready: set<nat>, running: bool, i: nat, sizes: seq<nat>, numbers: seq<nat>)
    requires Read(before, after, ready, running, i, sizes, numbers) && i < |before|
    ensures |after| == |before| == |sizes| == |numbers| && after[i] == before[i]
  {
  }

  lemma NextRead(
    before: seq<Stream>, after: seq<Stream>, ready: set<nat>, running: bool, i: nat, sizes: seq<nat>, numbers: seq<nat>,
    r: nat, pcount: nat)
    requires Read(before, after, ready, running, i, sizes, numbers) && i < |before| && Reads(before[i], i, ready)
    ensures var now := if running then after[i := Got(before[i], r, pcount)] else after;
      Read(before, now, ready, running, i + 1, sizes[i := r], numbers[i := pcount])
    ensures Readers(before, ready, i + 1) == Readers(before, ready, i) + 1
    ensures ReadBytes(before, ready, sizes[i := r], i + 1) == ReadBytes(before, ready, sizes, i) + r
  {
    ReadBytesSame(before, ready, sizes, i, i, r);
    hide Got;
  }

  lemma NextNotRead(
    before: seq<Stream>, after: seq<Stream>, ready: set<nat>, running: bool, i: nat, sizes: seq<nat>, numbers: seq<nat>)
    requires Read(before, after, ready, running, i, sizes, numbers) && i < |before| && !Reads(before[i], i, ready)
    ensures Read(before, after, ready, running, i + 1, sizes, numbers)
    ensures Readers(before, ready, i + 1) == Readers(before, ready, i)
    ensures ReadBytes(before, ready, sizes, i + 1) == ReadBytes(before, ready, sizes, i)
  {
    hide Got;
  }

  lemma GotBytes(st: Stream, r: nat, pcount: nat)
    ensures Got(st, r, pcount).bytesReceived == st.bytesReceived + r
  {
  }

  /** The totals of a call that was below a limit when it started: at most `passed` blocks past it. */
  ghost predicate CallBound(s: Settings, passed: nat, blocks: nat, blocks': nat, bytes: nat, bytes': nat) {
    && (s.blocks != 0 && blocks < s.blocks ==> blocks' < s.blocks + passed)
    && (s.bytes != 0 && bytes < s.bytes ==> bytes' < s.bytes + Volume(s, passed))
  }

  /** The most blocks a call may send past a limit. */
  function MostPassed(s: Settings, n: nat): nat { if Multisend(s) == 0 then 0 else Multisend(s) - 1 + n }

  lemma CallStarts(s: Settings, ready: set<nat>, ss: seq<Stream>, blocks: nat, bytes: nat)
    ensures CallBound(s, Passed(Multisend(s), Multisend(s), |ss|), blocks, blocks, bytes, bytes)
    ensures CallBound(s, MostPassed(s, |ss|), blocks, blocks, bytes, bytes)
    ensures OthersKept(ss, ss, ready)
    ensures InCall(s, ready, Multisend(s), ss, blocks, [])
    ensures Multisend(s) == 0 ==> IsCall(s, ready, Multisend(s), ss, blocks, [])
  {
    VolumeGrows(s, 0, MostPassed(s, |ss|));
    hide Volume;
  }

  lemma CallNext(
    s: Settings, left: nat, n: nat, blocks: nat, blocks': nat, blocks'': nat, bytes: nat, bytes': nat, bytes'': nat)
    requires 0 < left <= Multisend(s)
    requires CallBound(s, Passed(left, Multisend(s), n), blocks, blocks', bytes, bytes')
    requires RoundEnded(s, left, n, blocks', blocks'', bytes', bytes'')
    ensures CallBound(s, Passed(left - 1, Multisend(s), n), blocks, blocks'', bytes, bytes'')
    ensures CallBound(s, MostPassed(s, n), blocks, blocks'', bytes, bytes'')
  {
    VolumeOfRounds(s, left, n);
    VolumeGrows(s, 0, Passed(left, Multisend(s), n));
    hide Volume;
  }

  /** Streams that are not ready, or do not send, are left alone. */
  ghost predicate OthersKept(before: seq<Stream>, after: seq<Stream>, ready: set<nat>) {
    && |after| == |before|
    && (forall j :: 0 <= j < |before| ==> after[j].sender == before[j].sender)
    && (forall j :: 0 <= j < |before| && (j !in ready || !before[j].sender) ==> after[j] == before[j])
  }

  lemma OthersStillKept(
    s: Settings, before: seq<Stream>, mid: seq<Stream>, ready: set<nat>, left: nat, blocks: nat, rec: RoundRecord)
    requires OthersKept(before, mid, ready) && IsRound(s, ready, left, mid, blocks, rec)
    ensures OthersKept(before, rec.streams, ready)
  {
    forall j | 0 <= j < |mid|
      ensures rec.streams[j].sender == mid[j].sender
      ensures j !in ready || !mid[j].sender ==> rec.streams[j] == mid[j]
    {
      assert ServedOne(s, mid[j], rec.streams[j], rec.now, Eligible(mid[j], j, ready) && j < rec.stop,
                       rec.sizes[j], rec.r < 0 && j == rec.stop);
    }
    hide Served, Eligibles;
  }

  lemma OthersAre(before: seq<Stream>, after: seq<Stream>, ready: set<nat>)
    requires OthersKept(before, after, ready)
    ensures |after| == |before|
    ensures forall j :: 0 <= j < |before| && (j !in ready || !before[j].sender) ==> after[j] == before[j]
  {
  }

  /** At most the lights have changed. */
  ghost predicate Relit(before: seq<Stream>, after: seq<Stream>, checked: bool) {
    && |after| == |before|
    && forall j :: 0 <= j < |before| ==> after[j] == if checked then before[j].(green := after[j].green) else before[j]
  }

  lemma TotalIsNet(s: Settings, ss: seq<Stream>, total: int, omitting: bool, now: nat, k: nat)
    requires Good(s, ss, total, omitting, now, 0, 0, k)
    ensures total == NetSent(ss)
  {
  }

  class Test {
    const settings: Settings
    var streams: seq<Stream>
    var bytesSent: nat
    var blocksSent: nat
    var bytesReceived: nat
    var blocksReceived: nat
    var omitting: bool
    var done: bool
    var clock: nat
    /** The packet figures of each stream at the end of the omitted start, nothing before that. */
    ghost var atReset: seq<Figures>

    ghost predicate GoodAt(i: nat, lo: nat, hi: nat)
      reads this
    {
      Good(settings, streams, bytesSent, omitting, clock, i, lo, hi) && MarkedBy(streams, atReset)
    }

    /** The invariant of a running test. */
    ghost predicate Valid()
      reads this
    {
      GoodAt(0, 0, 0)
    }

    /** `iperf_init_test` and the timers created after it; the clock has moved on since. */
    constructor (settings: Settings, streams: seq<Stream>, omit: nat, now: nat)
      requires forall j :: 0 <= j < |streams| ==> Fresh(streams[j]) && streams[j].startFixed < now
      ensures Valid() && !done && this.streams == streams && omitting == (omit != 0)
    {
      this.settings := settings;
      this.streams := streams;
      bytesSent, blocksSent, bytesReceived, blocksReceived := 0, 0, 0, 0;
      omitting, done, clock := omit != 0, false, now;
      atReset := seq(|streams|, _ => NOTHING);
      StartIsGood(settings, streams, omit != 0, now);
    }

    /** `iperf_time_now`: time does not go back. */
    method TimeNow() returns (now: nat)
      modifies this`clock
      ensures now == clock >= old(clock)
    {
      now :| now >= clock;
      clock := now;
    }

    /** `snd` on one stream of `iperf_send`, and what follows its success. */
    method SendBlock(i: nat, now: nat, ghost k: nat) returns (r: int)
      requires GoodAt(i, AfterTurn(settings, k), k) && i < |streams| && streams[i].green && streams[i].sender
      requires now == clock && k < Rounds(settings) && (settings.burst == 0 ==> k == 0) && !done
      modifies this`streams, this`bytesSent, this`blocksSent
      ensures |streams| == old(|streams|) && GoodAt(if r < 0 then i else i + 1, AfterTurn(settings, k), k)
      ensures blocksSent == old(blocksSent) + if r < 0 then 0 else 1
      ensures bytesSent == old(bytesSent) + (if r < 0 then 0 else r) && r <= settings.blksize
      ensures forall j :: 0 <= j < |streams| && j != i ==> streams[j] == old(streams[j])
      ensures old(streams[i]).startFixed < now && streams[i] == Written(settings, old(streams[i]), r, now)
    {
      hide Sound, Net, NetSent, Stamped, Dispatched, MarkedBy;
      var st := streams[i];
      assert Sound(settings, st, omitting, clock, k);
      StartBefore(settings, st, omitting, clock, k);
      r :| r <= settings.blksize;
      if r < 0 {
        FailureIsGood(settings, streams, bytesSent, omitting, clock, i, AfterTurn(settings, k), k);
        TrafficKeepsMark(settings, st, 0, 0, omitting, now);
        MarkKept(streams, atReset, i, Stamped(st));
        streams := streams[i := Stamped(st)];
      } else {
        DispatchedIsSound(settings, st, omitting, clock, k, r);
        var sent := Dispatched(settings, st, r, now);
        TurnIsGood(settings, streams, bytesSent, omitting, clock, i, AfterTurn(settings, k), k, sent, r);
        TrafficKeepsMark(settings, st, r, 0, omitting, now);
        MarkKept(streams, atReset, i, sent);
        streams := streams[i := sent];
        bytesSent := bytesSent + r;
        blocksSent := blocksSent + 1;
      }
    }

    /** One round of `iperf_send` over the streams that are ready. The limits end a round, not the call. */
    method Round(ready: set<nat>, multisend: nat, now: nat, ghost k: nat)
      returns (r: int, active: bool, ghost stop: nat, ghost sizes: seq<nat>)
      requires GoodAt(0, AfterTurn(settings, k), k)
      requires now == clock && k < Rounds(settings) && (settings.burst == 0 ==> k == 0) && !done && multisend > 0
      modifies this`streams, this`bytesSent, this`blocksSent
      ensures |streams| == old(|streams|) && GoodAt(0, 0, AfterTurn(settings, k))
      ensures RoundEnded(settings, multisend, |streams|, old(blocksSent), blocksSent, old(bytesSent), bytesSent)
      ensures active <==> blocksSent > old(blocksSent)
      ensures Served(settings, old(streams), streams, ready, now, stop, sizes, r < 0) && stop <= |streams|
      ensures forall j :: 0 <= j < stop && j in ready && old(streams[j]).sender && old(streams[j]).green ==>
        old(streams[j]).startFixed < now && streams[j] == Dispatched(settings, old(streams[j]), sizes[j], now)
      ensures forall j :: 0 <= j < |streams| && (j !in ready || !old(streams[j]).sender || !old(streams[j]).green) ==>
        streams[j] == old(streams[j])
      ensures blocksSent == old(blocksSent) + Eligibles(old(streams), ready, stop)
      ensures stop < |streams| && r >= 0 ==> active && LimitReached(settings, multisend, blocksSent, bytesSent)
    {
      hide Good, MarkedBy, Written, Served, Eligibles, InRound, RoundEnded;
      r, active := 0, false;
      var i := 0;
      ghost var before := streams;
      sizes := seq(|streams|, _ => 0);
      NoneServed(settings, before, ready, now);
      EligiblesNext(before, ready, 0);
      RoundStarts(settings, multisend, blocksSent, bytesSent);
      RoundEnds(settings, multisend, 0, |streams|, blocksSent, blocksSent, bytesSent, bytesSent);
      while i < |streams|
        invariant i <= |streams| == old(|streams|) && GoodAt(i, AfterTurn(settings, k), k)
        invariant InRound(settings, multisend, i, old(blocksSent), blocksSent, old(bytesSent), bytesSent)
        invariant RoundEnded(settings, multisend, |streams|, old(blocksSent), blocksSent, old(bytesSent), bytesSent)
        invariant active <==> blocksSent > old(blocksSent)
        invariant r >= 0 && blocksSent == old(blocksSent) + Eligibles(before, ready, i)
        invariant Served(settings, before, streams, ready, now, i, sizes, false) && |sizes| == |before|
      {
        NotYetServed(settings, before, streams, ready, now, i, sizes);
        EligiblesNext(before, ready, i);
        ghost var was := streams;
        ghost var blocks, bytes := blocksSent, bytesSent;
        RoundGoesOn(settings, multisend, i, old(blocksSent), blocks, old(bytesSent), bytes, 0);
        if Eligible(streams[i], i, ready) {
          r := SendBlock(i, now, k);
          NextServed(settings, before, was, ready, now, i, sizes, r, streams[i]);
          assert streams == was[i := streams[i]];
          if r < 0 {
            break;
          }
          RoundGoesOn(settings, multisend, i, old(blocksSent), blocks, old(bytesSent), bytes, r);
          RoundTurnEnds(settings, multisend, i, |streams|, old(blocksSent), blocks, old(bytesSent), bytes, r);
          sizes := sizes[i := r];
          active := true;
          i := i + 1;
          if multisend > 1 && settings.bytes != 0 && bytesSent >= settings.bytes {
            break;
          }
          if multisend > 1 && settings.blocks != 0 && blocksSent >= settings.blocks {
            break;
          }
        } else {
          SkipIsGood(settings, streams, bytesSent, omitting, clock, i, k);
          NextSkipped(settings, before, streams, ready, now, i, sizes);
          i := i + 1;
        }
      }
      stop := i;
      ServedAre(settings, before, streams, ready, now, stop, sizes, r < 0);
      RestIsGood(settings, streams, bytesSent, omitting, clock, clock, i, k, AfterTurn(settings, k));
    }

    /** The rounds of `iperf_send`; `ahead` is how far ahead of the rate they leave a green stream. */
    method SendRounds(ready: set<nat>) returns (r: int, ghost ahead: nat, ghost trace: seq<RoundRecord>)
      requires Valid() && !done
      modifies this`streams, this`bytesSent, this`blocksSent, this`clock
      ensures |streams| == old(|streams|) && GoodAt(0, 0, ahead) && (settings.burst == 0 ==> ahead == 0)
      ensures CallBound(
                settings, MostPassed(settings, |streams|), old(blocksSent), blocksSent, old(bytesSent), bytesSent)
      ensures OthersKept(old(streams), streams, ready)
      ensures IsCall(settings, ready, Multisend(settings), old(streams), old(blocksSent), trace)
      ensures streams == StreamsBefore(old(streams), trace, |trace|)
      ensures blocksSent == BlocksBefore(old(blocksSent), trace, |trace|)
      ensures trace != [] ==> r == trace[|trace| - 1].r
      ensures trace == [] ==> r == 0
    {
      hide Good, MarkedBy, CallBound, OthersKept, InCall, IsCall, IsRound, Served, RoundEnded;
      var multisend: nat := Multisend(settings);
      ghost var before, blocks, bytes, m := streams, blocksSent, bytesSent, Multisend(settings);
      r, ahead, trace := 0, 0, [];
      CallStarts(settings, ready, streams, blocksSent, bytesSent);
      while multisend > 0
        invariant multisend <= m && |streams| == |before| && GoodAt(0, 0, ahead)
        invariant ahead == (if settings.burst == 0 then 0 else m - multisend) && |trace| == m - multisend
        invariant CallBound(settings, Passed(multisend, m, |streams|), blocks, blocksSent, bytes, bytesSent)
        invariant CallBound(settings, MostPassed(settings, |streams|), blocks, blocksSent, bytes, bytesSent)
        invariant OthersKept(before, streams, ready)
        invariant multisend > 0 ==> InCall(settings, ready, m, before, blocks, trace)
        invariant multisend == 0 ==> IsCall(settings, ready, m, before, blocks, trace)
        invariant streams == StreamsBefore(before, trace, |trace|) && blocksSent == BlocksBefore(blocks, trace, |trace|)
        invariant r == if trace == [] then 0 else trace[|trace| - 1].r
      {
        ghost var blocks', bytes', was := blocksSent, bytesSent, streams;
        var active;
        ghost var rec;
        r, active, ahead, rec := NextSendRound(ready, multisend, ahead);
        CallNext(settings, multisend, |streams|, blocks, blocks', blocksSent, bytes, bytes', bytesSent);
        OthersStillKept(settings, before, was, ready, multisend, blocks', rec);
        NextRound(settings, ready, m, before, blocks, trace, rec);
        trace := trace + [rec];
        if (r < 0 && r != NET_SOFTERROR) || !active {
          return;
        }
        multisend := multisend - 1;
      }
    }

    /** One turn of the loop over the rounds. */
    method NextSendRound(ready: set<nat>, multisend: nat, ghost ahead: nat)
      returns (r: int, active: bool, ghost ahead': nat, ghost rec: RoundRecord)
      requires GoodAt(0, 0, ahead) && !done && multisend > 0
      requires ahead < Rounds(settings) && (settings.burst == 0 ==> ahead == 0)
      modifies this`streams, this`bytesSent, this`blocksSent, this`clock
      ensures |streams| == old(|streams|) && GoodAt(0, 0, ahead') && ahead' == AfterTurn(settings, ahead)
      ensures RoundEnded(settings, multisend, |streams|, old(blocksSent), blocksSent, old(bytesSent), bytesSent)
      ensures IsRound(settings, ready, multisend, old(streams), old(blocksSent), rec)
      ensures rec.streams == streams && rec.blocks == blocksSent && rec.r == r
      ensures active <==> blocksSent > old(blocksSent)
    {
      hide Good, MarkedBy, Served, RoundEnded, Eligibles;
      var now := clock;
      if settings.rate != 0 && settings.burst == 0 {
        now := TickKeeping(ahead);
      }
      AnyStart(settings, streams, bytesSent, omitting, clock, ahead, AfterTurn(settings, ahead));
      ghost var stop, sizes;
      r, active, stop, sizes := Round(ready, multisend, now, ahead);
      ahead' := AfterTurn(settings, ahead);
      TotalIsNet(settings, streams, bytesSent, omitting, clock, ahead');
      rec := RoundRecord(now, stop, sizes, r, streams, blocksSent);
    }

    /** The clock moves on, and nothing gets worse. */
    method TickKeeping(ghost k: nat) returns (now: nat)
      requires GoodAt(0, 0, k)
      modifies this`clock
      ensures now == clock >= old(clock) && GoodAt(0, 0, k)
    {
      AnyStart(settings, streams, bytesSent, omitting, clock, k, k);
      now := TimeNow();
      RestIsGood(settings, streams, bytesSent, omitting, old(clock), now, 0, k, k);
      hide Good;
    }

    /** `iperf_send`: the totals stay true and, while they do, the pacing and block limits bound what is sent. */
    method Send(ready: set<nat>) returns (r: int, ghost trace: seq<RoundRecord>)
      requires Valid() && !done
      modifies this`streams, this`bytesSent, this`blocksSent, this`clock
      ensures |streams| == old(|streams|) && (r >= 0 ==> Valid()) && exists k :: GoodAt(0, 0, k)
      ensures settings.blocks != 0 && old(blocksSent) < settings.blocks && streams != [] && Multisend(settings) > 0 ==>
        blocksSent <= settings.blocks + (Multisend(settings) - 1) + (|streams| - 1)
      ensures settings.bytes != 0 && old(bytesSent) < settings.bytes && Multisend(settings) > 0 ==>
        bytesSent < settings.bytes + Volume(settings, Multisend(settings) - 1 + |streams|)
      ensures forall j :: 0 <= j < |streams| && (j !in ready || !old(streams[j]).sender) ==>
        streams[j] == old(streams[j]).(green := streams[j].green)
      ensures r >= 0 && settings.burst != 0 ==> forall j :: 0 <= j < |streams| ==>
        (streams[j].green <==> MICRO * streams[j].bytesSent < Allowance(settings, streams[j], clock))
      ensures IsCall(settings, ready, Multisend(settings), old(streams), old(blocksSent), trace)
      ensures blocksSent == BlocksBefore(old(blocksSent), trace, |trace|)
      ensures Relit(StreamsBefore(old(streams), trace, |trace|), streams, settings.burst != 0 && r >= 0)
      ensures r < 0 <==> trace != [] && trace[|trace| - 1].r < 0 && trace[|trace| - 1].r != NET_SOFTERROR
    {
      hide Good, MarkedBy, IsCall, OthersKept, Volume;
      ghost var ahead;
      r, ahead, trace := SendRounds(ready);
      OthersAre(old(streams), streams, ready);
      if r < 0 && r != NET_SOFTERROR {
        return;
      }
      r := 0;
      if settings.burst != 0 {
        ThrottleAll(ahead);
      }
    }

    /** The checks at the end of a burst. */
    method ThrottleAll(ghost k: nat)
      requires GoodAt(0, 0, k) && !done
      modifies this`streams, this`clock
      ensures Valid() && |streams| == old(|streams|)
      ensures forall j :: 0 <= j < |streams| ==> streams[j] == old(streams[j]).(green := streams[j].green)
      ensures forall j :: 0 <= j < |streams| ==>
        (streams[j].green <==> MICRO * streams[j].bytesSent < Allowance(settings, streams[j], clock))
    {
      hide Good, Sound, Allowance, MarkedBy;
      var now := TickKeeping(k);
      var i := 0;
      while i < |streams|
        invariant i <= |streams| == old(|streams|) && now == clock && GoodAt(i, 0, k)
        invariant forall j :: 0 <= j < |streams| ==> streams[j] == old(streams[j]).(green := streams[j].green)
        invariant forall j :: 0 <= j < i ==>
          (streams[j].green <==> MICRO * streams[j].bytesSent < Allowance(settings, streams[j], clock))
      {
        Throttle(i, now, 0, k);
        i := i + 1;
      }
      AllDone(settings, streams, bytesSent, omitting, clock, 0, k);
    }

    /** `iperf_check_throttle` on a test that is not done. */
    method Throttle(i: nat, now: nat, ghost lo: nat, ghost hi: nat)
      requires GoodAt(i, lo, hi) && i < |streams| && now == clock
      modifies this`streams
      ensures |streams| == old(|streams|) && GoodAt(i + 1, lo, hi)
      ensures forall j :: 0 <= j < |streams| && j != i ==> streams[j] == old(streams[j])
      ensures streams[i] == old(streams[i]).(green := streams[i].green)
      ensures streams[i].green <==> MICRO * streams[i].bytesSent < Allowance(settings, streams[i], now)
    {
      var st := streams[i];
      assert Sound(settings, st, omitting, clock, hi);
      StartBefore(settings, st, omitting, clock, hi);
      ThrottledIsSound(settings, st, omitting, clock, hi);
      GreenIsBelowRate(settings, st, now);
      TrafficKeepsMark(settings, st, 0, 0, omitting, now);
      MarkKept(streams, atReset, i, Throttled(settings, st, now));
      RelaxIsSound(settings, Throttled(settings, st, now), omitting, clock, lo);
      TurnIsGood(settings, streams, bytesSent, omitting, clock, i, lo, hi, Throttled(settings, st, now), 0);
      streams := streams[i := Throttled(settings, st, now)];
      hide Good, Sound, MarkedBy;
    }

    /** `send_timer_proc` of one stream. */
    method SendTimer(i: nat)
      requires Valid() && i < |streams|
      modifies this`streams, this`clock
      ensures Valid() && |streams| == old(|streams|)
      ensures old(done) ==> streams == old(streams)
      ensures !old(done) ==> streams == old(streams)[i := old(streams[i]).(green := streams[i].green)]
      ensures !old(done) ==>
        (streams[i].green <==> MICRO * streams[i].bytesSent < Allowance(settings, streams[i], clock))
    {
      hide Good, Sound, MarkedBy;
      var now := TickKeeping(0);
      if !done {
        SplitAt(settings, streams, bytesSent, omitting, clock, i, 0);
        Throttle(i, now, 0, 0);
        AllDone(settings, streams, bytesSent, omitting, clock, 0, 0);
      }
    }

    /** `iperf_stats_callback` */
    method StatsCallback()
      requires Valid()
      modifies this`streams
      ensures Valid() && |streams| == old(|streams|)
      ensures forall j :: 0 <= j < |streams| ==> streams[j] == Recorded(old(streams[j]), omitting)
    {
      hide Good, Sound, Recorded, MarkedBy;
      var i := 0;
      while i < |streams|
        invariant i <= |streams| == old(|streams|) && Valid()
        invariant forall j :: 0 <= j < |streams| ==>
          streams[j] == if j < i then Recorded(old(streams[j]), omitting) else old(streams[j])
      {
        RecordedIsGood(settings, streams, bytesSent, omitting, clock, i);
        TrafficKeepsMark(settings, streams[i], 0, 0, omitting, clock);
        MarkKept(streams, atReset, i, Recorded(streams[i], omitting));
        streams := streams[i := Recorded(streams[i], omitting)];
        i := i + 1;
      }
    }

    /** The omit timer: `iperf_reset_stats`, with which the part of the test that counts begins. */
    method OmitTimer()
      requires Valid() && omitting
      modifies this`streams, this`bytesSent, this`blocksSent, this`omitting, this`atReset
      ensures Valid() && !omitting && bytesSent == 0 == blocksSent && |streams| == old(|streams|)
      ensures forall j :: 0 <= j < |streams| ==> streams[j] == Restarted(old(streams[j]))
      ensures forall j :: 0 <= j < |streams| ==> atReset[j] == FiguresOf(old(streams[j]).counters)
    {
      omitting := false;
      bytesSent, blocksSent := 0, 0;
      var i := 0;
      while i < |streams|
        invariant i <= |streams| == old(|streams|) && !omitting && bytesSent == 0 == blocksSent
        invariant forall j :: 0 <= j < |streams| ==>
          streams[j] == if j < i then Restarted(old(streams[j])) else old(streams[j])
      {
        streams := streams[i := Restarted(streams[i])];
        i := i + 1;
      }
      RestartIsGood(settings, old(streams), old(bytesSent), clock, streams);
      RestartIsMarked(old(streams), streams);
      atReset := Counts(old(streams));
      hide Good, Restarted, MarkedBy, FiguresOf;
    }

    /** `iperf_recv`; bytes that come after the end of the test reach only the test's own counter. */
    method Recv(ready: set<nat>, running: bool)
      returns (r: int, ghost stop: nat, ghost sizes: seq<nat>, ghost numbers: seq<nat>)
      requires Valid()
      modifies this`streams, this`bytesReceived, this`blocksReceived
      ensures Valid() && |streams| == old(|streams|)
      ensures !running ==> streams == old(streams)
      ensures running ==> bytesReceived - old(bytesReceived) == Taken(streams) - Taken(old(streams))
      ensures Read(old(streams), streams, ready, running, stop, sizes, numbers)
      ensures stop <= |streams| == |sizes| == |numbers|
      ensures forall j :: 0 <= j < |streams| && (j !in ready || old(streams[j]).sender) ==>
        streams[j] == old(streams[j])
      ensures running ==> forall j :: 0 <= j < stop && j in ready && !old(streams[j]).sender ==>
        streams[j] == Got(old(streams[j]), sizes[j], numbers[j])
      ensures blocksReceived == old(blocksReceived) + Readers(old(streams), ready, stop)
      ensures bytesReceived == old(bytesReceived) + ReadBytes(old(streams), ready, sizes, stop)
      ensures r < 0 <==> stop < |streams|
      ensures r < 0 ==> Reads(old(streams[stop]), stop, ready)
    {
      hide Good, Sound, Taken, MarkedBy, Read, ReadBytes, Readers, Got;
      r, stop := 0, 0;
      var i := 0;
      ghost var before := streams;
      sizes, numbers := seq(|streams|, _ => 0), seq(|streams|, _ => 0);
      NoneRead(before, ready, running, sizes);
      while i < |streams|
        invariant i <= |streams| == |before| == |sizes| == |numbers| && Valid() && (!running ==> streams == before)
        invariant running ==> bytesReceived - old(bytesReceived) == Taken(streams) - Taken(before)
        invariant Read(before, streams, ready, running, i, sizes, numbers)
        invariant blocksReceived == old(blocksReceived) + Readers(before, ready, i)
        invariant bytesReceived == old(bytesReceived) + ReadBytes(before, ready, sizes, i)
      {
        NotYetRead(before, streams, ready, running, i, sizes, numbers);
        stop := i;
        if i in ready && !streams[i].sender {
          r :| r <= settings.blksize;
          if r < 0 {
            ReadAre(before, streams, ready, running, stop, sizes, numbers);
            return;
          }
          var pcount: nat :| true;
          NextRead(before, streams, ready, running, i, sizes, numbers, r, pcount);
          if running {
            GotIsGood(settings, streams, bytesSent, omitting, clock, i, r, pcount);
            TrafficKeepsMark(settings, streams[i], r, pcount, omitting, clock);
            MarkKept(streams, atReset, i, Got(streams[i], r, pcount));
            TakenUpdate(streams, i, Got(streams[i], r, pcount));
            GotBytes(streams[i], r, pcount);
            streams := streams[i := Got(streams[i], r, pcount)];
          }
          sizes, numbers := sizes[i := r], numbers[i := pcount];
          bytesReceived := bytesReceived + r;
          blocksReceived := blocksReceived + 1;
        } else {
          NextNotRead(before, streams, ready, running, i, sizes, numbers);
        }
        i := i + 1;
      }
      r, stop := 0, i;
      ReadAre(before, streams, ready, running, stop, sizes, numbers);
    }

    /** At every point, in whatever round: what has been sent is what the rate allows plus one burst. */
    lemma PacingHolds(i: nat, lo: nat, hi: nat, j: nat)
      requires GoodAt(i, lo, hi) && j < |streams| && settings.rate != 0
      ensures 8_000_000 * streams[j].bytesSent
        <= settings.rate * (clock - streams[j].startFixed) + 8_000_000 * (settings.blksize * Max(1, settings.burst))
    {
      assert Sound(settings, streams[j], omitting, clock, if j < i then lo else hi);
      hide AllSound, Balanced, Telescopes;
    }

    /** At every point: no byte is lost between the streams, their rows and the test's total. */
    lemma BooksHold(i: nat, lo: nat, hi: nat, j: nat)
      requires GoodAt(i, lo, hi) && j < |streams|
      ensures bytesSent == NetSent(streams) && Telescopes(streams[j])
      ensures streams[j].sender ==>
        streams[j].bytesSent - streams[j].bytesSentOmit ==
          RowBytes(streams[j].rows, omitting) + streams[j].sentThisInterval
      ensures !streams[j].sender ==>
        streams[j].bytesReceived == RowBytes(streams[j].rows, omitting) + streams[j].receivedThisInterval
    {
      assert Sound(settings, streams[j], omitting, clock, if j < i then lo else hi);
      hide AllSound, Telescopes, Bounded, Within, RowBytes;
    }

    /** At every point: the summary of a stream is what it has counted since the end of the omitted start. */
    lemma SummariesHold(i: nat, lo: nat, hi: nat, j: nat)
      requires GoodAt(i, lo, hi) && j < |streams|
      ensures |atReset| == |streams| && Summary(streams[j]) == Minus(FiguresOf(streams[j].counters), atReset[j])
    {
      hide Good;
    }

    /** The end-of-test condition of `iperf_run_client`. */
    predicate Over()
      reads this
    {
      && !omitting
      && (|| done
          || (settings.bytes != 0 && bytesSent >= settings.bytes)
          || (settings.blocks != 0 && blocksSent >= settings.blocks))
    }

    /** A test limited by blocks or bytes overshoots by less than a round of streams and the rounds of a call. */
    ghost predicate WithinLimit()
      reads this
    {
      !omitting && streams != [] && Multisend(settings) > 0 ==>
        && (settings.blocks != 0 ==> blocksSent <= settings.blocks + (Multisend(settings) - 1) + (|streams| - 1))
        && (settings.bytes != 0 ==>
              bytesSent < settings.bytes + Volume(settings, Multisend(settings) - 1 + |streams|))
    }

    /** The timers that may run in one turn of the loop: intervals, pacing, the omitted start, the end of the test. */
    method RunTimers()
      requires Valid() && !done
      modifies this`streams, this`bytesSent, this`blocksSent, this`omitting, this`done, this`clock, this`atReset
      ensures Valid() && |streams| == old(|streams|)
      ensures omitting ==> old(omitting) && !done
      ensures blocksSent == if old(omitting) && !omitting then 0 else old(blocksSent)
      ensures bytesSent == if old(omitting) && !omitting then 0 else old(bytesSent)
    {
      hide Good;
      var stats: bool :| true;
      if stats {
        StatsCallback();
      }
      var i: nat :| true;
      if i < |streams| {
        SendTimer(i);
      }
      var omitOver: bool :| true;
      if omitting && omitOver {
        OmitTimer();
      }
      var over: bool :| true;
      if !omitting && over {
        done := true;
      }
    }

    /** Turns of the client's loop in TEST_RUNNING, until the test is over or the observer stops looking. */
    method RunClient(turns: nat) returns (r: int, made: nat)
      requires Valid() && !done && !Over()
      modifies this
      ensures WithinLimit() && (r >= 0 ==> Valid())
      ensures |streams| == old(|streams|) && made <= turns
      ensures r >= 0 && made < turns ==> !omitting
      ensures r >= 0 && made < turns ==>
        || done || (settings.bytes != 0 && bytesSent >= settings.bytes)
        || (settings.blocks != 0 && blocksSent >= settings.blocks)
    {
      hide Good, Volume, MarkedBy, IsCall, Relit, Allowance, BlocksBefore, StreamsBefore;
      hide Read, ReadBytes, Readers, Taken, NetSent;
      r, made := 0, 0;
      while made < turns && !Over()
        invariant Valid() && |streams| == old(|streams|) && WithinLimit()
        invariant (!Over() ==> !done) && made <= turns && r >= 0
      {
        made := made + 1;
        var ready: set<nat> :| true;
        ghost var trace;
        r, trace := Send(ready);
        if r < 0 {
          return;
        }
        var receives: bool :| true;
        if receives {
          ready :| true;
          ghost var stop, sizes, numbers;
          r, stop, sizes, numbers := Recv(ready, true);
          if r < 0 {
            return;
          }
        }
        RunTimers();
      }
    }
  }

  /** The rounds a call of `iperf_send` makes at most. */
  function Multisend(s: Settings): nat {
    if s.burst != 0 then s.burst else if s.rate == 0 then s.multisend else 1
  }

  /** Bytes in `k` blocks. */
  function Volume(s: Settings, k: nat): nat { s.blksize * k }

  lemma VolumeGrows(s: Settings, j: nat, k: nat)
    ensures Volume(s, 0) == 0 && Volume(s, j + 1) == Volume(s, j) + s.blksize
    ensures j <= k ==> Volume(s, j) <= Volume(s, k)
    ensures Volume(s, j + k) == Volume(s, j) + Volume(s, k)
  {
    assert s.blksize * (j + 1) == s.blksize * j + s.blksize;
    assert s.blksize * (j + k) == s.blksize * j + s.blksize * k;
    if j <= k {
      assert s.blksize * j <= s.blksize * k;
    }
  }

  /** Blocks that may have gone out past a limit with `left` of `m` rounds to go: one a round, in the last one `n`. */
  function Passed(left: nat, m: nat, n: nat): nat
    requires left <= m
  {
    if left == 0 && m > 0 then m - 1 + n else m - left
  }

  lemma VolumeOfRounds(s: Settings, left: nat, n: nat)
    requires 0 < left <= Multisend(s)
    ensures var m := Multisend(s);
      && Volume(s, 0) == 0
      && (left > 1 ==> Volume(s, Passed(left - 1, m, n)) == Volume(s, Passed(left, m, n)) + s.blksize)
      && (left == 1 ==> Volume(s, Passed(left - 1, m, n)) == Volume(s, Passed(left, m, n)) + Volume(s, n))
      && Volume(s, Passed(left - 1, m, n)) <= Volume(s, m - 1 + n)
  {
    var m := Multisend(s);
    VolumeGrows(s, m - left, m - 1 + n);
    VolumeGrows(s, m - left, n);
    VolumeGrows(s, Passed(left - 1, m, n), m - 1 + n);
    hide Volume;
  }

  function Max(a: nat, b: nat): nat { if a >= b then a else b }

  lemma StartBefore(s: Settings, st: Stream, omitting: bool, now: nat, k: nat)
    requires Sound(s, st, omitting, now, k)
    ensures st.startFixed < now
  {
  }

  lemma SkipIsGood(s: Settings, ss: seq<Stream>, total: int, omitting: bool, now: nat, i: nat, k: nat)
    requires Good(s, ss, total, omitting, now, i, AfterTurn(s, k), k) && i < |ss|
    ensures Good(s, ss, total, omitting, now, i + 1, AfterTurn(s, k), k)
  {
    LaterIsSound(s, ss[i], omitting, now, now, k);
    hide Sound, NetSent;
  }

  lemma StartIsGood(s: Settings, ss: seq<Stream>, omitting: bool, now: nat)
    requires forall j :: 0 <= j < |ss| ==> Fresh(ss[j]) && ss[j].startFixed < now
    ensures Good(s, ss, 0, omitting, now, 0, 0, 0)
  {
    NetSentZero(ss);
    forall j | 0 <= j < |ss| ensures Sound(s, ss[j], omitting, now, 0) {
      FreshIsSound(s, ss[j], omitting, now);
    }
    hide Sound, NetSent, Fresh;
  }

  lemma FreshIsSound(s: Settings, st: Stream, omitting: bool, now: nat)
    requires Fresh(st) && st.startFixed < now
    ensures Sound(s, st, omitting, now, 0)
  {
    FreshBalances(st, omitting);
    BlocksGrow(s, 0, Rounds(s));
    AllowanceGrows(s, st, st.startFixed, now);
    assert Allowance(s, st, st.startFixed) == 0;
    hide Balanced, Telescopes, Allowance, Blocks;
  }

  lemma RelaxIsSound(s: Settings, st: Stream, omitting: bool, now: nat, k: nat)
    requires Sound(s, st, omitting, now, 0)
    ensures Sound(s, st, omitting, now, k)
  {
    BlocksGrow(s, 0, k);
    hide Blocks, Allowance, Balanced, Telescopes;
  }

  /** With nobody's turn taken the other margin does not matter. */
  lemma AnyStart(s: Settings, ss: seq<Stream>, total: int, omitting: bool, now: nat, k: nat, lo: nat)
    requires Good(s, ss, total, omitting, now, 0, 0, k)
    ensures Good(s, ss, total, omitting, now, 0, lo, k)
  {
    hide Sound, NetSent;
  }

  lemma SplitAt(s: Settings, ss: seq<Stream>, total: int, omitting: bool, now: nat, i: nat, k: nat)
    requires Good(s, ss, total, omitting, now, 0, k, k)
    ensures Good(s, ss, total, omitting, now, i, k, k)
  {
    hide Sound, NetSent;
  }

  /** After the last turn, or when both margins agree, all streams are at most `lo` ahead. */
  lemma AllDone(s: Settings, ss: seq<Stream>, total: int, omitting: bool, now: nat, lo: nat, hi: nat)
    ensures Good(s, ss, total, omitting, now, |ss|, lo, hi) ==> Good(s, ss, total, omitting, now, 0, lo, lo)
    ensures lo == hi ==> forall i: nat :: Good(s, ss, total, omitting, now, i, lo, hi) ==>
      Good(s, ss, total, omitting, now, 0, lo, lo)
  {
    hide Sound, NetSent;
  }

  lemma SameBooks(s: Settings, st: Stream, t: Stream, omitting: bool, now: nat, k: nat)
    requires Sound(s, st, omitting, now, k) && Balanced(t, omitting) && Telescopes(t)
    requires t.startFixed == st.startFixed && t.bytesSent == st.bytesSent && t.green == st.green
    ensures Sound(s, t, omitting, now, k)
  {
    hide Balanced, Telescopes, Blocks;
  }

  lemma RecordedIsGood(s: Settings, ss: seq<Stream>, total: int, omitting: bool, now: nat, i: nat)
    requires Good(s, ss, total, omitting, now, 0, 0, 0) && i < |ss|
    ensures Good(s, ss[i := Recorded(ss[i], omitting)], total, omitting, now, 0, 0, 0)
  {
    var t := Recorded(ss[i], omitting);
    RecordedIsSound(s, ss[i], omitting, now);
    SplitAt(s, ss, total, omitting, now, i, 0);
    TurnIsGood(s, ss, total, omitting, now, i, 0, 0, t, 0);
    AllDone(s, ss[i := t], total, omitting, now, 0, 0);
    hide Sound, AllSound, NetSent, Recorded;
  }

  lemma RecordedIsSound(s: Settings, st: Stream, omitting: bool, now: nat)
    requires Sound(s, st, omitting, now, 0)
    ensures Sound(s, Recorded(st, omitting), omitting, now, 0) && Net(Recorded(st, omitting)) == Net(st)
  {
    hide Blocks, Allowance, SumOf, RowBytes, OmittedTotal, LastTotal;
    RecordedBalances(st, omitting);
    RecordedTelescopes(st, omitting);
    SameBooks(s, st, Recorded(st, omitting), omitting, now, 0);
    hide Sound, Balanced, Telescopes;
  }

  lemma GotIsGood(s: Settings, ss: seq<Stream>, total: int, omitting: bool, now: nat, i: nat, r: nat, pcount: nat)
    requires Good(s, ss, total, omitting, now, 0, 0, 0) && i < |ss| && !ss[i].sender
    ensures Good(s, ss[i := Got(ss[i], r, pcount)], total, omitting, now, 0, 0, 0)
  {
    var t := Got(ss[i], r, pcount);
    GotIsSound(s, ss[i], omitting, now, r, pcount);
    SplitAt(s, ss, total, omitting, now, i, 0);
    TurnIsGood(s, ss, total, omitting, now, i, 0, 0, t, 0);
    AllDone(s, ss[i := t], total, omitting, now, 0, 0);
    hide Sound, AllSound, NetSent, Got;
  }

  lemma GotIsSound(s: Settings, st: Stream, omitting: bool, now: nat, r: nat, pcount: nat)
    requires Sound(s, st, omitting, now, 0) && !st.sender
    ensures Sound(s, Got(st, r, pcount), omitting, now, 0) && Net(Got(st, r, pcount)) == Net(st)
  {
    GotBalances(st, r, pcount, omitting);
    assert Telescopes(Got(st, r, pcount));
    SameBooks(s, st, Got(st, r, pcount), omitting, now, 0);
    hide Sound, RowBytes, SumOf;
  }

  /** Pacing is not restarted with the statistics: it still counts from the fixed start. */
  lemma RestartedIsSound(s: Settings, st: Stream, now: nat)
    requires Sound(s, st, true, now, 0)
    ensures Sound(s, Restarted(st), false, now, 0) && Net(Restarted(st)) == 0
  {
    hide Blocks, SumOf, RowBytes, OmittedTotal, LastTotal;
    RestartedBalances(st);
    var t := Restarted(st);
    assert Telescopes(t);
    assert Allowance(s, t, now) == Allowance(s, st, now);
    hide Balanced, Telescopes, Allowance;
  }

  lemma RestartIsGood(s: Settings, ss: seq<Stream>, total: int, now: nat, ts: seq<Stream>)
    requires Good(s, ss, total, true, now, 0, 0, 0) && |ts| == |ss|
    requires forall j :: 0 <= j < |ts| ==> ts[j] == Restarted(ss[j])
    ensures Good(s, ts, 0, false, now, 0, 0, 0)
  {
    forall j | 0 <= j < |ts| ensures Sound(s, ts[j], false, now, 0) && Net(ts[j]) == 0 {
      RestartedIsSound(s, ss[j], now);
    }
    NetSentZero(ts);
    hide Sound, Restarted, NetSent, Net;
  }
}
