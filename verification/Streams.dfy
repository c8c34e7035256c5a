/** The two stream tables of a test, and the reports the sides give each other about them. */
module Streams {
  import opened Bytes

  /** Which side sends; the client's view. The server takes the opposite one. */
  datatype Mode = Sender | Receiver | Bidirectional

  /** One data connection as one side keeps it. `conn` is the connection behind the socket. */
  datatype Stream = Stream(
    conn: nat, id: nat, sender: bool,
    sent: int, omitted: int, received: int, packets: int, errors: int, peerPackets: int)

  /** What a side tells about one of its streams. */
  datatype Report = Report(id: nat, bytes: int, errors: int, packets: int)

  /** The id of the stream at position `k`. */
  function StreamId(k: nat): nat { if k == 0 then 1 else k + 2 }

  /** `iperf_add_stream` */
  function Added(ss: seq<Stream>, conn: nat, sender: bool): seq<Stream> {
    ss + [Stream(conn, StreamId(|ss|), sender, 0, 0, 0, 0, 0, 0)]
  }

  method AddStream(ss: seq<Stream>, conn: nat, sender: bool) returns (r: seq<Stream>)
    requires forall k :: 0 <= k < |ss| ==> ss[k].id == StreamId(k)
    ensures r == Added(ss, conn, sender) && |r| == |ss| + 1
    ensures r[|ss|].id == (if |ss| == 0 then 1 else |ss| + 2) && r[|ss|].conn == conn && r[|ss|].sender == sender
    ensures forall k :: 0 <= k < |r| ==> r[k].id == StreamId(k)
    ensures forall j, k :: 0 <= j < k < |r| ==> r[j].id != r[k].id
  {
    var id;
    if ss == [] {
      id := 1;
    } else {
      id := 2;
      var n := 0;
      while n < |ss|
        invariant n <= |ss| && id == n + 2
      {
        n, id := n + 1, id + 1;
      }
    }
    r := ss + [Stream(conn, id, sender, 0, 0, 0, 0, 0, 0)];
  }

  function ReportOf(s: Stream): Report {
    Report(s.id, if s.sender then s.sent - s.omitted else s.received, s.errors, s.packets)
  }

  /** The streams part of `send_results`. */
  function Reports(ss: seq<Stream>): seq<Report> { seq(|ss|, k requires 0 <= k < |ss| => ReportOf(ss[k])) }

  /** What `get_results` writes into the stream a report names. */
  function Credited(s: Stream, r: Report): Stream {
    if s.sender then s.(errors := r.errors, peerPackets := r.packets, received := r.bytes)
    else s.(peerPackets := r.packets, sent := r.bytes)
  }

  function Find(ss: seq<Stream>, id: nat): nat {
    if ss == [] || ss[0].id == id then 0 else 1 + Find(ss[1..], id)
  }

  /** The first stream with that id. */
  lemma {:induction false} FindIsFirst(ss: seq<Stream>, id: nat, k: nat)
    requires k <= |ss| && (forall j :: 0 <= j < k ==> ss[j].id != id)
    requires k < |ss| ==> ss[k].id == id
    ensures Find(ss, id) == k
  {
    if k > 0 {
      FindIsFirst(ss[1..], id, k - 1);
    }
  }

  /** One turn of the loop of `get_results`. */
  function Credit(ss: seq<Stream>, r: Report): Option<seq<Stream>> {
    var k := Find(ss, r.id);
    if k < |ss| then Some(ss[k := Credited(ss[k], r)]) else None
  }

  /** The streams part of `get_results`: it goes on past a report it cannot place, and fails at the end. */
  function Absorb(ss: seq<Stream>, rs: seq<Report>): (seq<Stream>, bool) {
    if rs == [] then (ss, true)
    else
      var (before, ok) := Absorb(ss, rs[..|rs| - 1]);
      match Credit(before, rs[|rs| - 1])
      case Some(after) => (after, ok)
      case None => (before, false)
  }

  method GetResults(ss: seq<Stream>, rs: seq<Report>) returns (r: seq<Stream>, ok: bool)
    ensures (r, ok) == Absorb(ss, rs)
  {
    r, ok := ss, true;
    var i := 0;
    while i < |rs|
      invariant i <= |rs| && (r, ok) == Absorb(ss, rs[..i])
    {
      hide Absorb;
      AbsorbNext(ss, rs, i);
      var k := 0;
      while k < |r| && r[k].id != rs[i].id
        invariant k <= |r| && forall j :: 0 <= j < k ==> r[j].id != rs[i].id
      {
        k := k + 1;
      }
      FindIsFirst(r, rs[i].id, k);
      if k == |r| {
        ok := false;
      } else {
        r := r[k := Credited(r[k], rs[i])];
      }
      i := i + 1;
    }
    assert rs[..i] == rs;
  }

  lemma AbsorbNext(ss: seq<Stream>, rs: seq<Report>, i: nat)
    requires i < |rs|
    ensures Absorb(ss, rs[..i + 1]) ==
      var (before, ok) := Absorb(ss, rs[..i]);
      match Credit(before, rs[i]) { case Some(after) => (after, ok) case None => (before, false) }
  {
    assert rs[..i + 1][..i] == rs[..i];
  }

  /** The same ids on both sides, and opposite directions. */
  ghost predicate Paired(mine: seq<Stream>, peer: seq<Stream>) {
    && |mine| == |peer|
    && (forall k :: 0 <= k < |mine| ==> mine[k].id == StreamId(k))
    && (forall k :: 0 <= k < |peer| ==> peer[k].id == StreamId(k) && peer[k].sender != mine[k].sender)
  }

  /** What `mine` has been told about itself by the other end of its connection. */
  predicate HeardFrom(mine: Stream, peer: Stream) {
    && mine.peerPackets == peer.packets
    && (mine.sender ==> mine.received == peer.received && mine.errors == peer.errors)
    && (!mine.sender ==> mine.sent == peer.sent - peer.omitted)
  }

  ghost predicate Heard(mine: seq<Stream>, peer: seq<Stream>) {
    |mine| == |peer| && forall k :: 0 <= k < |mine| ==> HeardFrom(mine[k], peer[k])
  }

  /** Nothing a side counted itself has changed. */
  predicate OwnCountersKept(s: Stream, t: Stream) {
    && s.conn == t.conn && s.id == t.id && s.sender == t.sender && s.packets == t.packets && s.omitted == t.omitted
    && (if s.sender then s.sent == t.sent else s.received == t.received && s.errors == t.errors)
  }

  ghost predicate Kept(ss: seq<Stream>, ts: seq<Stream>) {
    |ss| == |ts| && forall k :: 0 <= k < |ss| ==> OwnCountersKept(ss[k], ts[k])
  }

  /** Every report lands on the stream at the other end of the reporting stream's connection. */
  lemma ResultsReachThePeer(mine: seq<Stream>, peer: seq<Stream>)
    requires Paired(mine, peer)
    ensures var (r, ok) := Absorb(mine, Reports(peer));
      ok && |r| == |mine| && forall k :: 0 <= k < |r| ==> r[k] == Credited(mine[k], ReportOf(peer[k]))
  {
    FirstResults(mine, peer, |peer|);
    hide Absorb;
    assert Reports(peer)[..|peer|] == Reports(peer);
  }

  /** The first `n` reports have been credited. */
  ghost predicate Informed(mine: seq<Stream>, peer: seq<Stream>, n: nat, r: seq<Stream>)
    requires |mine| == |peer|
  {
    && |r| == |mine|
    && forall k :: 0 <= k < |r| ==> r[k] == if k < n then Credited(mine[k], ReportOf(peer[k])) else mine[k]
  }

  lemma {:induction false} FirstResults(mine: seq<Stream>, peer: seq<Stream>, n: nat)
    requires Paired(mine, peer) && n <= |peer|
    ensures var (r, ok) := Absorb(mine, Reports(peer)[..n]); ok && Informed(mine, peer, n, r)
  {
    if n > 0 {
      FirstResults(mine, peer, n - 1);
      hide Find, Credit, Informed;
      AbsorbNext(mine, Reports(peer), n - 1);
      var (r, ok) := Absorb(mine, Reports(peer)[..n - 1]);
      NextResult(mine, peer, n - 1, r);
      hide Absorb;
    }
  }

  lemma NextResult(mine: seq<Stream>, peer: seq<Stream>, n: nat, r: seq<Stream>)
    requires Paired(mine, peer) && n < |peer| && Informed(mine, peer, n, r)
    ensures Credit(r, ReportOf(peer[n])).Some?
    ensures Informed(mine, peer, n + 1, Credit(r, ReportOf(peer[n])).value)
  {
    forall k | 0 <= k < n ensures r[k].id == StreamId(k) {
      assert r[k] == Credited(mine[k], ReportOf(peer[k]));
    }
    hide Find, Credited;
    FindIsFirst(r, StreamId(n), n);
  }

  /** Both ends know after an exchange what the other end counted, and neither has lost its own counts. */
  lemma ExchangeInforms(mine: seq<Stream>, peer: seq<Stream>)
    requires Paired(mine, peer)
    ensures var (r, ok) := Absorb(mine, Reports(peer)); ok && Heard(r, peer) && Kept(mine, r)
  {
    ResultsReachThePeer(mine, peer);
    hide Absorb, Reports;
  }

  /** News about a stream stays true as long as the peer keeps its own counters. */
  lemma HeardStays(mine: seq<Stream>, peer: seq<Stream>, later: seq<Stream>)
    requires Heard(mine, peer) && Kept(peer, later) && |mine| == |peer|
    requires forall k :: 0 <= k < |mine| ==> peer[k].sender != mine[k].sender
    ensures Heard(mine, later)
  {
  }
}
