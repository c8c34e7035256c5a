/** The control protocol: client and server as one transition system over two FIFO channels and an accept queue. */
module ControlProtocol {
  import opened Streams

  const TEST_START := 1
  const TEST_RUNNING := 2
  const TEST_END := 4
  const PARAM_EXCHANGE := 9
  const CREATE_STREAMS := 10
  const EXCHANGE_RESULTS := 13
  const DISPLAY_RESULTS := 14
  const IPERF_START := 15
  const IPERF_DONE := 16

  /** What the client was asked to do. */
  datatype Config = Config(mode: Mode, numStreams: nat)

  datatype Message =
    | State(code: int)
    | Params(parallel: nat, reverse: bool, bidirectional: bool)
    | Results(reports: seq<Report>)

  /**
   * A connection waiting to be accepted: the control connection, the client's data connections, a
   * stranger's with the wrong cookie, and a stranger's that has not sent a cookie.
   */
  datatype Connection = Control | Data(conn: nat) | Stray | Silent

  /** Where a side is: in its event loop, in a blocking operation inside a handler, or out with an error. */
  datatype Place = Looping | ReadingParams | Connecting | ReadingCookie | ReadingResults | Failed

  datatype Client = Client(state: int, at: Place, streams: seq<Stream>)

  datatype Server = Server(
    state: int, at: Place, streams: seq<Stream>, mode: Mode, numStreams: nat,
    toReceive: nat, toSend: nat, receiversAccepted: nat, sendersAccepted: nat)

  datatype System = System(
    config: Config, client: Client, server: Server,
    toServer: seq<Message>, toClient: seq<Message>, queue: seq<Connection>)

  /** The client has connected and sent its cookie. */
  function Init(config: Config): System {
    System(
      config, Client(0, Looping, []), Server(IPERF_START, Looping, [], Receiver, 1, 0, 0, 0, 0),
      [], [], [Control])
  }

  // ---------------------------------------------------------------------------------------------
  // The server

  /** `get_parameters` on a server that starts out as a receiver. */
  function ServerMode(reverse: bool, bidirectional: bool): Mode {
    if bidirectional then Bidirectional else if reverse then Sender else Receiver
  }

  /** How many streams to expect in each direction. */
  function WithQuotas(v: Server): Server {
    match v.mode
    case Bidirectional => v.(toReceive := v.numStreams, toSend := v.numStreams)
    case Receiver => v.(toReceive := v.numStreams, toSend := 0)
    case Sender => v.(toReceive := 0, toSend := v.numStreams)
  }

  /** A data connection with the right cookie: receivers first. */
  function Admit(v: Server, conn: nat): Server {
    if v.receiversAccepted != v.toReceive then
      v.(receiversAccepted := v.receiversAccepted + 1, streams := Added(v.streams, conn, false))
    else if v.sendersAccepted != v.toSend then
      v.(sendersAccepted := v.sendersAccepted + 1, streams := Added(v.streams, conn, true))
    else v
  }

  /** The end of a round of the server's loop: start once every expected stream is there. */
  function Settle(s: System): System {
    var v := s.server;
    if v.state == CREATE_STREAMS && v.receiversAccepted == v.toReceive && v.sendersAccepted == v.toSend then
      s.(server := v.(state := TEST_RUNNING), toClient := s.toClient + [State(TEST_START), State(TEST_RUNNING)])
    else s
  }

  function TakeConnection(s: System): System
    requires s.queue != []
  {
    var v, rest := s.server, s.(queue := s.queue[1..]);
    if v.state == CREATE_STREAMS then
      (match s.queue[0]
       case Data(conn) => Settle(rest.(server := Admit(v, conn)))
       case Silent => rest.(server := v.(at := ReadingCookie))
       case _ => Settle(rest))
    else if v.state == IPERF_START then
      if s.queue[0] == Control then
        rest.(
          server := v.(state := PARAM_EXCHANGE, at := ReadingParams),
          toClient := s.toClient + [State(PARAM_EXCHANGE)])
      else rest.(server := v.(at := Failed))
    else rest.(server := WithQuotas(v))
  }

  /** The cookie the server has been waiting for is a wrong one: the connection is closed. */
  function CookieRead(s: System): System { Settle(s.(server := s.server.(at := Looping))) }

  function ReadParams(s: System): System
    requires s.toServer != []
  {
    var v, rest := s.server, s.(toServer := s.toServer[1..]);
    match s.toServer[0]
    case Params(n, reverse, bidirectional) =>
      var w := v.(mode := ServerMode(reverse, bidirectional), numStreams := n, state := CREATE_STREAMS, at := Looping);
      Settle(rest.(server := WithQuotas(w), toClient := s.toClient + [State(CREATE_STREAMS)]))
    case _ => rest.(server := v.(at := Failed))
  }

  /** `iperf_handle_message_server` */
  function ServerMessage(s: System): System
    requires s.toServer != []
  {
    var v, rest := s.server, s.(toServer := s.toServer[1..]);
    match s.toServer[0]
    case State(code) =>
      if code == TEST_START || code == IPERF_DONE then Settle(rest.(server := v.(state := code)))
      else if code == TEST_END then
        rest.(
          server := v.(state := EXCHANGE_RESULTS, at := ReadingResults),
          toClient := s.toClient + [State(EXCHANGE_RESULTS)])
      else rest.(server := v.(state := code, at := Failed))
    case _ => rest.(server := v.(at := Failed))
  }

  /** The rest of the TEST_END handler, once the client's results are in. */
  function ServerResults(s: System): System
    requires s.toServer != []
  {
    var v, rest := s.server, s.(toServer := s.toServer[1..]);
    match s.toServer[0]
    case Results(reports) =>
      var (streams, ok) := Absorb(v.streams, reports);
      if ok then
        rest.(
          server := v.(state := DISPLAY_RESULTS, at := Looping, streams := streams),
          toClient := s.toClient + [Results(Reports(streams)), State(DISPLAY_RESULTS)])
      else rest.(server := v.(at := Failed, streams := streams))
    case _ => rest.(server := v.(at := Failed))
  }

  // ---------------------------------------------------------------------------------------------
  // The client

  function Total(c: Config): nat { if c.mode.Bidirectional? then 2 * c.numStreams else c.numStreams }

  /** Does the client send on its `k`-th connection? */
  predicate Sends(c: Config, k: nat) {
    match c.mode
    case Sender => true
    case Receiver => false
    case Bidirectional => k < c.numStreams
  }

  function ParamsOf(c: Config): Message { Params(c.numStreams, c.mode.Receiver?, c.mode.Bidirectional?) }

  /** `iperf_handle_message_client` */
  function ClientMessage(s: System): System
    requires s.toClient != []
  {
    var c, rest := s.client, s.(toClient := s.toClient[1..]);
    match s.toClient[0]
    case State(code) =>
      if code == PARAM_EXCHANGE then rest.(client := c.(state := code), toServer := s.toServer + [ParamsOf(s.config)])
      else if code == CREATE_STREAMS then rest.(client := c.(state := code, at := Connecting))
      else if code == TEST_START || code == TEST_RUNNING || code == IPERF_DONE then rest.(client := c.(state := code))
      else if code == EXCHANGE_RESULTS then
        rest.(client := c.(state := code, at := ReadingResults), toServer := s.toServer + [Results(Reports(c.streams))])
      else if code == DISPLAY_RESULTS then
        rest.(client := c.(state := IPERF_DONE), toServer := s.toServer + [State(IPERF_DONE)])
      else rest.(client := c.(state := code, at := Failed))
    case _ => rest.(client := c.(at := Failed))
  }

  /** One turn of `iperf_create_streams`, or the return from its last one. */
  function Connect(s: System): System {
    var c := s.client;
    var k := |c.streams|;
    if k < Total(s.config) then
      s.(client := c.(streams := Added(c.streams, k, Sends(s.config, k))), queue := s.queue + [Data(k)])
    else s.(client := c.(at := Looping))
  }

  /** The rest of the EXCHANGE_RESULTS handler, once the server's results are in. */
  function ClientResults(s: System): System
    requires s.toClient != []
  {
    var c, rest := s.client, s.(toClient := s.toClient[1..]);
    match s.toClient[0]
    case Results(reports) =>
      var (streams, ok) := Absorb(c.streams, reports);
      rest.(client := c.(at := if ok then Looping else Failed, streams := streams))
    case _ => rest.(client := c.(at := Failed))
  }

  function EndTest(s: System): System {
    s.(client := s.client.(state := TEST_END), toServer := s.toServer + [State(TEST_END)])
  }

  // ---------------------------------------------------------------------------------------------
  // Runs

  datatype Action =
    | ServerAccepts | ServerReadsParams | ServerHandles | ServerReadsResults
    | ClientHandles | ClientConnects | ClientReadsResults | ClientEndsTest
    | ClientMovesData(streams: seq<Stream>) | ServerMovesData(streams: seq<Stream>)
    | StrayConnects | SilentConnects | StrangerSpeaks(i: nat) | CookieArrives

  /** Traffic changes what a side counts itself, and nothing else. */
  ghost predicate Moved(ss: seq<Stream>, ts: seq<Stream>) {
    |ss| == |ts| && forall k :: 0 <= k < |ss| ==>
      ss[k].conn == ts[k].conn && ss[k].id == ts[k].id && ss[k].sender == ts[k].sender
  }

  ghost predicate Enabled(s: System, a: Action) {
    match a
    case ServerAccepts => s.server.at.Looping? && s.server.state != IPERF_DONE && s.queue != []
    case ServerReadsParams => s.server.at.ReadingParams? && s.toServer != []
    case ServerHandles =>
      s.server.at.Looping? && s.server.state != IPERF_START && s.server.state != IPERF_DONE && s.toServer != []
    case ServerReadsResults => s.server.at.ReadingResults? && s.toServer != []
    case ClientHandles => s.client.at.Looping? && s.client.state != IPERF_DONE && s.toClient != []
    case ClientConnects => s.client.at.Connecting?
    case ClientReadsResults => s.client.at.ReadingResults? && s.toClient != []
    case ClientEndsTest => s.client.at.Looping? && s.client.state == TEST_RUNNING
    case ClientMovesData(streams) =>
      && s.client.at.Looping? && Moved(s.client.streams, streams)
      && (s.client.state == TEST_RUNNING || (s.config.mode.Receiver? && s.client.state == TEST_END))
    case ServerMovesData(streams) =>
      s.server.at.Looping? && s.server.state == TEST_RUNNING && Moved(s.server.streams, streams)
    case StrayConnects => true
    case SilentConnects => true
    case StrangerSpeaks(i) => i < |s.queue| && s.queue[i].Silent?
    case CookieArrives => s.server.at.ReadingCookie?
  }

  ghost function Step(s: System, a: Action): System
    requires Enabled(s, a)
  {
    match a
    case ServerAccepts => TakeConnection(s)
    case ServerReadsParams => ReadParams(s)
    case ServerHandles => ServerMessage(s)
    case ServerReadsResults => ServerResults(s)
    case ClientHandles => ClientMessage(s)
    case ClientConnects => Connect(s)
    case ClientReadsResults => ClientResults(s)
    case ClientEndsTest => EndTest(s)
    case ClientMovesData(streams) => s.(client := s.client.(streams := streams))
    case ServerMovesData(streams) => s.(server := s.server.(streams := streams))
    case StrayConnects => s.(queue := s.queue + [Stray])
    case SilentConnects => s.(queue := s.queue + [Silent])
    case StrangerSpeaks(i) => s.(queue := s.queue[i := Stray])
    case CookieArrives => CookieRead(s)
  }

  predicate IsTraffic(a: Action) { a.ClientMovesData? || a.ServerMovesData? }

  /** What strangers do: they connect, with or without a cookie, or send the cookie later. */
  predicate IsArrival(a: Action) { a.StrayConnects? || a.SilentConnects? }

  predicate IsCookie(a: Action) { a.StrangerSpeaks? || a.CookieArrives? }

  predicate IsProtocol(a: Action) { !IsTraffic(a) && !IsArrival(a) && !IsCookie(a) }

  ghost predicate Executable(s: System, run: seq<Action>)
    decreases |run|
  {
    run != [] ==> Enabled(s, run[0]) && Executable(Step(s, run[0]), run[1..])
  }

  ghost function Execute(s: System, run: seq<Action>): System
    requires Executable(s, run)
    decreases |run|
  {
    if run == [] then s else Execute(Step(s, run[0]), run[1..])
  }

  predicate Finished(s: System) { s.client.state == IPERF_DONE && s.server.state == IPERF_DONE }

  // ---------------------------------------------------------------------------------------------
  // The relation between the two sides

  const LAST := 14

  /** What can be seen of the two sides and the channels. */
  datatype View = View(
    client: int, clientAt: Place, server: int, serverAt: Place, toClient: seq<Message>, toServer: seq<Message>)

  function ViewOf(s: System): View {
    View(s.client.state, s.client.at, s.server.state, s.server.at, s.toClient, s.toServer)
  }

  predicate AllAdmitted(s: System) { |s.server.streams| == Total(s.config) }

  /** The view in each phase of a test. While streams are set up the server may be ahead of the client. */
  function Chart(phase: nat, s: System): View {
    var v := if AllAdmitted(s) then TEST_RUNNING else CREATE_STREAMS;
    var go := if AllAdmitted(s) then [State(TEST_START), State(TEST_RUNNING)] else [];
    var at := if s.server.at.ReadingCookie? && !AllAdmitted(s) then ReadingCookie else Looping;
    match phase
    case 0 => View(0, Looping, IPERF_START, Looping, [], [])
    case 1 => View(0, Looping, PARAM_EXCHANGE, ReadingParams, [State(PARAM_EXCHANGE)], [])
    case 2 => View(PARAM_EXCHANGE, Looping, PARAM_EXCHANGE, ReadingParams, [], [ParamsOf(s.config)])
    case 3 => View(PARAM_EXCHANGE, Looping, v, at, [State(CREATE_STREAMS)] + go, [])
    case 4 => View(CREATE_STREAMS, Connecting, v, at, go, [])
    case 5 => View(CREATE_STREAMS, Looping, v, at, go, [])
    case 6 => View(TEST_START, Looping, TEST_RUNNING, Looping, [State(TEST_RUNNING)], [])
    case 7 => View(TEST_RUNNING, Looping, TEST_RUNNING, Looping, [], [])
    case 8 => View(TEST_END, Looping, TEST_RUNNING, Looping, [], [State(TEST_END)])
    case 9 => View(TEST_END, Looping, EXCHANGE_RESULTS, ReadingResults, [State(EXCHANGE_RESULTS)], [])
    case 10 => View(EXCHANGE_RESULTS, ReadingResults, EXCHANGE_RESULTS, ReadingResults,
                    [], [Results(Reports(s.client.streams))])
    case 11 => View(EXCHANGE_RESULTS, ReadingResults, DISPLAY_RESULTS, Looping,
                    [Results(Reports(s.server.streams)), State(DISPLAY_RESULTS)], [])
    case 12 => View(EXCHANGE_RESULTS, Looping, DISPLAY_RESULTS, Looping, [State(DISPLAY_RESULTS)], [])
    case 13 => View(IPERF_DONE, Looping, DISPLAY_RESULTS, Looping, [], [State(IPERF_DONE)])
    case _ => View(IPERF_DONE, Looping, IPERF_DONE, Looping, [], [])
  }

  /** The `k`-th stream of a side stands for the `k`-th connection. */
  ghost predicate Numbered(ss: seq<Stream>) {
    forall k :: 0 <= k < |ss| ==> ss[k].conn == k && ss[k].id == StreamId(k)
  }

  /** Directions on the client, and their opposites on the server. */
  ghost predicate Directed(c: Config, ss: seq<Stream>, onClient: bool) {
    forall k :: 0 <= k < |ss| ==> ss[k].sender == (Sends(c, k) == onClient)
  }

  function Min(a: nat, b: nat): nat { if a <= b then a else b }

  /** The connections in the queue that belong to the test, in order. */
  function DataOf(queue: seq<Connection>): seq<nat> {
    if queue == [] then []
    else (match queue[0] case Data(k) => [k] case _ => []) + DataOf(queue[1..])
  }

  /** The `count` numbers from `from` on. */
  function Range(from: nat, count: nat): seq<nat>
    decreases count
  {
    if count == 0 then [] else [from] + Range(from + 1, count - 1)
  }

  /** The server's books agree with the test it was asked for. */
  predicate Booked(c: Config, v: Server) {
    && v.numStreams == c.numStreams && v == WithQuotas(v)
    && v.mode == ServerMode(c.mode.Receiver?, c.mode.Bidirectional?)
    && v.receiversAccepted == Min(|v.streams|, v.toReceive) && v.sendersAccepted == |v.streams| - v.receiversAccepted
  }

  /** Every connection the client has made is either a stream of the server or still in the queue, in order. */
  ghost predicate Connected(phase: nat, s: System) {
    && |s.server.streams| <= |s.client.streams| <= Total(s.config)
    && DataOf(s.queue) == Range(|s.server.streams|, |s.client.streams| - |s.server.streams|)
    && (phase <= 3 ==> s.client.streams == []) && (phase >= 5 ==> |s.client.streams| == Total(s.config))
    && (phase >= 6 ==> |s.server.streams| == Total(s.config))
    && (phase == 0 ==> s.queue != [] && s.queue[0] == Control)
  }

  ghost predicate SidesMatch(c: Config, ours: seq<Stream>, theirs: seq<Stream>) {
    && Numbered(ours) && Numbered(theirs)
    && Directed(c, ours, true) && Directed(c, theirs, false)
  }

  /** Who has been told the other side's counts. */
  ghost predicate Told(phase: nat, ours: seq<Stream>, theirs: seq<Stream>) {
    && (phase >= 11 ==> Heard(theirs, ours))
    && (phase >= 12 ==> Heard(ours, theirs))
  }

  ghost predicate At(phase: nat, s: System) {
    && phase <= LAST && ViewOf(s) == Chart(phase, s)
    && Connected(phase, s)
    && SidesMatch(s.config, s.client.streams, s.server.streams) && Told(phase, s.client.streams, s.server.streams)
    && (if phase <= 2 then s.server.receiversAccepted == 0 == s.server.sendersAccepted else Booked(s.config, s.server))
  }

  /** The inductive invariant: the two sides are in one of the phases together. */
  ghost predicate InStep(s: System) { exists phase :: At(phase, s) }

  // ---------------------------------------------------------------------------------------------
  // Every step keeps the sides together

  lemma AdmitKeepsBooks(c: Config, v: Server, conn: nat)
    requires Booked(c, v) && |v.streams| < Total(c)
    ensures Booked(c, Admit(v, conn))
    ensures Admit(v, conn).streams == Added(v.streams, conn, !Sends(c, |v.streams|))
    ensures Admit(v, conn).state == v.state && Admit(v, conn).at == v.at
  {
  }

  lemma FullWhenTotal(c: Config, v: Server)
    requires Booked(c, v) && |v.streams| <= Total(c)
    ensures v.receiversAccepted == v.toReceive && v.sendersAccepted == v.toSend <==> |v.streams| == Total(c)
  {
  }

  lemma AddedMatches(c: Config, ss: seq<Stream>, onClient: bool)
    requires Numbered(ss) && Directed(c, ss, onClient)
    ensures var r := Added(ss, |ss|, Sends(c, |ss|) == onClient); Numbered(r) && Directed(c, r, onClient)
  {
  }

  lemma {:induction false} DataOfAppend(queue: seq<Connection>, x: Connection)
    ensures DataOf(queue + [x]) == DataOf(queue) + DataOf([x])
  {
    if queue == [] {
      assert queue + [x] == [x];
    } else {
      assert (queue + [x])[1..] == queue[1..] + [x];
      DataOfAppend(queue[1..], x);
    }
  }

  lemma {:induction false} RangeAppend(from: nat, count: nat)
    ensures Range(from, count + 1) == Range(from, count) + [from + count]
    decreases count
  {
    if count > 0 {
      RangeAppend(from + 1, count - 1);
    }
  }

  /** A stranger in the queue changes nothing. */
  lemma StrangerKeeps(phase: nat, s: System, a: Action)
    requires At(phase, s) && IsArrival(a)
    ensures At(phase, Step(s, a))
  {
    var x := if a.StrayConnects? then Stray else Silent;
    DataOfAppend(s.queue, x);
    assert DataOf([x]) == [];
    hide Range, SidesMatch, Told, Booked;
  }

  lemma {:induction false} DataOfSpeaking(queue: seq<Connection>, i: nat)
    requires i < |queue| && queue[i].Silent?
    ensures DataOf(queue[i := Stray]) == DataOf(queue)
  {
    if i > 0 {
      assert queue[i := Stray][1..] == queue[1..][i - 1 := Stray];
      DataOfSpeaking(queue[1..], i - 1);
    } else {
      assert queue[0 := Stray][1..] == queue[1..];
    }
  }

  lemma SpeakingKeeps(phase: nat, s: System, i: nat)
    requires At(phase, s) && Enabled(s, StrangerSpeaks(i))
    ensures At(phase, Step(s, StrangerSpeaks(i)))
  {
    DataOfSpeaking(s.queue, i);
    hide Range, SidesMatch, Told, Booked, DataOf;
  }

  lemma CookieKeeps(phase: nat, s: System)
    requires At(phase, s) && Enabled(s, CookieArrives)
    ensures At(phase, Step(s, CookieArrives))
  {
    assert 3 <= phase <= 5;
    FullWhenTotal(s.config, s.server);
    hide Range, SidesMatch, Told, DataOf;
  }

  lemma ControlAccepted(s: System)
    requires At(0, s) && Enabled(s, ServerAccepts)
    ensures At(1, Step(s, ServerAccepts))
  {
    hide Range, SidesMatch, Booked;
  }

  lemma ParamsRead(phase: nat, s: System)
    requires At(phase, s) && Enabled(s, ServerReadsParams)
    ensures At(phase + 1, Step(s, ServerReadsParams))
  {
    assert phase == 2;
    var mode := ServerMode(s.config.mode.Receiver?, s.config.mode.Bidirectional?);
    var v := s.server.(mode := mode, numStreams := s.config.numStreams);
    FullWhenTotal(s.config, WithQuotas(v));
    hide Range, SidesMatch;
  }

  /** A stranger without a cookie is refused, or makes the server wait while it sets up streams. */
  lemma SilentAccepted(phase: nat, s: System)
    requires At(phase, s) && Enabled(s, ServerAccepts) && phase > 0 && s.queue[0].Silent?
    ensures At(phase, Step(s, ServerAccepts))
    ensures Step(s, ServerAccepts).server.at.ReadingCookie? <==> s.server.state == CREATE_STREAMS
  {
    hide Range, SidesMatch, Told;
  }

  lemma StrangerStep(phase: nat, s: System)
    requires At(phase, s) && Enabled(s, ServerAccepts) && phase > 0 && !s.queue[0].Data? && !s.queue[0].Silent?
    ensures Step(s, ServerAccepts) == s.(queue := s.queue[1..])
  {
    if s.server.state == CREATE_STREAMS {
      FullWhenTotal(s.config, s.server);
    }
    hide Range, SidesMatch, Told, DataOf;
  }

  /** A connection with the wrong cookie is closed or refused, whatever the phase. */
  lemma StrangerTurnedAway(phase: nat, s: System)
    requires At(phase, s) && Enabled(s, ServerAccepts) && phase > 0 && !s.queue[0].Data? && !s.queue[0].Silent?
    ensures At(phase, Step(s, ServerAccepts))
  {
    StrangerStep(phase, s);
    assert DataOf(s.queue) == DataOf(s.queue[1..]);
    hide Range, SidesMatch, Told, DataOf, Step, Booked;
  }

  /** No data connection of the client meets a server that would refuse it or has no use for it. */
  lemma DataIsExpected(phase: nat, s: System)
    requires At(phase, s) && Enabled(s, ServerAccepts) && phase > 0 && s.queue[0].Data?
    ensures 4 <= phase <= 5 && s.server.state == CREATE_STREAMS && !AllAdmitted(s)
    ensures s.queue[0].conn == |s.server.streams| < |s.client.streams|
    ensures DataOf(s.queue[1..]) == Range(|s.server.streams| + 1, |s.client.streams| - |s.server.streams| - 1)
  {
    assert DataOf(s.queue)[0] == s.queue[0].conn;
    assert DataOf(s.queue[1..]) == DataOf(s.queue)[1..];
  }

  /** The server after a data connection has been admitted. */
  function AfterAdmission(s: System): System
    requires s.queue != []
  {
    var v, rest := Admit(s.server, |s.server.streams|), s.(queue := s.queue[1..]);
    if |v.streams| == Total(s.config) then
      rest.(server := v.(state := TEST_RUNNING), toClient := s.toClient + [State(TEST_START), State(TEST_RUNNING)])
    else rest.(server := v)
  }

  lemma AdmissionSettles(phase: nat, s: System)
    requires At(phase, s) && Enabled(s, ServerAccepts) && phase > 0 && s.queue[0].Data?
    ensures Step(s, ServerAccepts) == AfterAdmission(s)
    ensures Booked(s.config, AfterAdmission(s).server)
    ensures AfterAdmission(s).server.streams ==
      Added(s.server.streams, s.queue[0].conn, !Sends(s.config, |s.server.streams|))
  {
    DataIsExpected(phase, s);
    var v := Admit(s.server, |s.server.streams|);
    AdmitKeepsBooks(s.config, s.server, |s.server.streams|);
    FullWhenTotal(s.config, v);
    hide Range, DataOf, Admit, SidesMatch, Told, Sends, Chart;
  }

  lemma AdmissionIsCharted(phase: nat, s: System)
    requires 4 <= phase <= 5 && ViewOf(s) == Chart(phase, s) && !AllAdmitted(s) && s.queue != []
    requires |Admit(s.server, |s.server.streams|).streams| == |s.server.streams| + 1 && s.server.at.Looping?
    requires Admit(s.server, |s.server.streams|).state == s.server.state
    requires Admit(s.server, |s.server.streams|).at == s.server.at
    ensures ViewOf(AfterAdmission(s)) == Chart(phase, AfterAdmission(s))
  {
    hide Admit;
  }

  lemma AdmissionConnects(phase: nat, s: System)
    requires At(phase, s) && Enabled(s, ServerAccepts) && phase > 0 && s.queue[0].Data?
    requires |AfterAdmission(s).server.streams| == |s.server.streams| + 1
    ensures Connected(phase, AfterAdmission(s))
  {
    DataIsExpected(phase, s);
    hide Range, DataOf, Admit, Booked, SidesMatch, Told, ViewOf, Chart;
  }

  lemma DataAdmitted(phase: nat, s: System)
    requires At(phase, s) && Enabled(s, ServerAccepts) && phase > 0 && s.queue[0].Data?
    ensures At(phase, Step(s, ServerAccepts))
    ensures Step(s, ServerAccepts).server.streams ==
      Added(s.server.streams, s.queue[0].conn, !Sends(s.config, |s.server.streams|))
  {
    DataIsExpected(phase, s);
    AdmissionSettles(phase, s);
    AdmitKeepsBooks(s.config, s.server, |s.server.streams|);
    AdmissionIsCharted(phase, s);
    AdmissionConnects(phase, s);
    AddedMatches(s.config, s.server.streams, false);
    hide Range, DataOf, Admit, Booked, Directed, Numbered, Sends, Step, ViewOf, Chart, Connected;
  }

  lemma EndHandled(phase: nat, s: System)
    requires At(phase, s) && Enabled(s, ServerHandles)
    ensures At(phase + 1, Step(s, ServerHandles))
  {
    assert phase == 8 || phase == 13;
    hide Range, SidesMatch, Told, DataOf, Booked;
  }

  lemma SidesArePaired(s: System)
    requires SidesMatch(s.config, s.client.streams, s.server.streams) && |s.client.streams| == |s.server.streams|
    ensures Paired(s.client.streams, s.server.streams) && Paired(s.server.streams, s.client.streams)
  {
  }

  lemma KeptMatches(c: Config, ss: seq<Stream>, ts: seq<Stream>, onClient: bool)
    requires Numbered(ss) && Directed(c, ss, onClient) && Kept(ss, ts)
    ensures Numbered(ts) && Directed(c, ts, onClient)
  {
  }

  lemma BooksIgnoreCounts(c: Config, v: Server, streams: seq<Stream>, state: int, at: Place)
    requires Booked(c, v) && |streams| == |v.streams|
    ensures Booked(c, v.(state := state, at := at, streams := streams))
  {
  }

  lemma ServerInformed(phase: nat, s: System)
    requires At(phase, s) && Enabled(s, ServerReadsResults)
    ensures At(phase + 1, Step(s, ServerReadsResults))
  {
    assert phase == 10;
    SidesArePaired(s);
    ExchangeInforms(s.server.streams, s.client.streams);
    var (streams, ok) := Absorb(s.server.streams, Reports(s.client.streams));
    KeptMatches(s.config, s.server.streams, streams, false);
    BooksIgnoreCounts(s.config, s.server, streams, DISPLAY_RESULTS, Looping);
    hide Range, DataOf, Numbered, Directed, Heard, Absorb, Reports, Booked;
  }

  lemma ClientInformed(phase: nat, s: System)
    requires At(phase, s) && Enabled(s, ClientReadsResults)
    ensures At(phase + 1, Step(s, ClientReadsResults))
  {
    assert phase == 11;
    SidesArePaired(s);
    ExchangeInforms(s.client.streams, s.server.streams);
    var (streams, ok) := Absorb(s.client.streams, Reports(s.server.streams));
    KeptMatches(s.config, s.client.streams, streams, true);
    HeardStays(s.server.streams, s.client.streams, streams);
    hide Range, DataOf, Numbered, Directed, Heard, Absorb, Reports, Booked;
  }

  lemma ClientFollows(phase: nat, s: System)
    requires At(phase, s) && Enabled(s, ClientHandles)
    ensures At(phase + 1, Step(s, ClientHandles))
  {
    assert phase == 1 || phase == 3 || (phase == 5 && AllAdmitted(s)) || phase == 6 || phase == 9 || phase == 12;
    hide Range, SidesMatch, Told, DataOf, Booked;
  }

  lemma ClientConnectsNext(s: System)
    requires At(4, s) && Enabled(s, ClientConnects) && |s.client.streams| < Total(s.config)
    ensures At(4, Step(s, ClientConnects))
  {
    hide Booked;
    var k := |s.client.streams|;
    DataOfAppend(s.queue, Data(k));
    assert DataOf([Data(k)]) == [k];
    RangeAppend(|s.server.streams|, k - |s.server.streams|);
    AddedMatches(s.config, s.client.streams, true);
    hide Range, DataOf, Numbered, Directed, Heard, Sends;
  }

  lemma ClientConnected(phase: nat, s: System)
    requires At(phase, s) && Enabled(s, ClientConnects)
    ensures At(if |s.client.streams| < Total(s.config) then phase else phase + 1, Step(s, ClientConnects))
  {
    assert phase == 4;
    if |s.client.streams| < Total(s.config) {
      ClientConnectsNext(s);
    }
    hide Range, DataOf, SidesMatch, Heard, Booked;
  }

  lemma TestEnded(phase: nat, s: System)
    requires At(phase, s) && Enabled(s, ClientEndsTest)
    ensures At(phase + 1, Step(s, ClientEndsTest))
  {
    assert phase == 7;
    hide Range, SidesMatch, Told, DataOf, Booked;
  }

  lemma TrafficKeeps(phase: nat, s: System, a: Action)
    requires At(phase, s) && Enabled(s, a) && (a.ClientMovesData? || a.ServerMovesData?)
    ensures At(phase, Step(s, a))
  {
    assert 3 <= phase <= 9;
    hide Range, DataOf;
  }

  // ---------------------------------------------------------------------------------------------
  // How much a test still has to do

  function ClientRank(state: int, at: Place): nat {
    if state == 0 then 9
    else if state == PARAM_EXCHANGE then 8
    else if state == CREATE_STREAMS then if at.Connecting? then 7 else 6
    else if state == TEST_START then 5
    else if state == TEST_RUNNING then 4
    else if state == TEST_END then 3
    else if state == EXCHANGE_RESULTS then if at.ReadingResults? then 2 else 1
    else 0
  }

  function ServerRank(state: int): nat {
    if state == IPERF_START then 6
    else if state == PARAM_EXCHANGE then 5
    else if state == CREATE_STREAMS then 4
    else if state == TEST_RUNNING then 3
    else if state == EXCHANGE_RESULTS then 2
    else if state == DISPLAY_RESULTS then 1
    else 0
  }

  function Rank(s: System): nat {
    var unmade := if |s.client.streams| <= Total(s.config) then Total(s.config) - |s.client.streams| else 0;
    ClientRank(s.client.state, s.client.at) + ServerRank(s.server.state) + 2 * unmade + |s.queue|
  }

  /** One step: the sides stay together, and every step of the protocol brings the end nearer. */
  lemma StepKeeps(phase: nat, s: System, a: Action) returns (next: nat)
    requires At(phase, s) && Enabled(s, a)
    ensures phase <= next <= phase + 1 && At(next, Step(s, a))
  {
    hide At, Enabled, Step;
    next := phase + 1;
    match a
    case ServerAccepts => next := AcceptKeeps(phase, s);
    case ServerReadsParams => ParamsRead(phase, s);
    case ServerHandles => EndHandled(phase, s);
    case ServerReadsResults => ServerInformed(phase, s);
    case ClientHandles => ClientFollows(phase, s);
    case ClientConnects =>
      ClientConnected(phase, s);
      next := if |s.client.streams| < Total(s.config) then phase else phase + 1;
    case ClientReadsResults => ClientInformed(phase, s);
    case ClientEndsTest => TestEnded(phase, s);
    case StrayConnects => StrangerKeeps(phase, s, a); next := phase;
    case SilentConnects => StrangerKeeps(phase, s, a); next := phase;
    case StrangerSpeaks(i) => SpeakingKeeps(phase, s, i); next := phase;
    case CookieArrives => CookieKeeps(phase, s); next := phase;
    case _ => TrafficKeeps(phase, s, a); next := phase;
  }

  lemma AcceptKeeps(phase: nat, s: System) returns (next: nat)
    requires At(phase, s) && Enabled(s, ServerAccepts)
    ensures phase <= next <= phase + 1 && At(next, Step(s, ServerAccepts))
  {
    next := phase;
    if phase == 0 {
      ControlAccepted(s);
      next := 1;
    } else if s.queue[0].Data? {
      DataAdmitted(phase, s);
    } else if s.queue[0].Silent? {
      SilentAccepted(phase, s);
    } else {
      StrangerTurnedAway(phase, s);
    }
    hide At, Step;
  }

  /** The rank after a step. */
  ghost predicate RankMoves(s: System, a: Action, t: System) {
    && (IsProtocol(a) ==> Rank(t) < Rank(s))
    && (IsArrival(a) ==> Rank(t) == Rank(s) + 1)
    && (IsTraffic(a) || IsCookie(a) ==> Rank(t) == Rank(s))
  }

  lemma ServerStepsDown(phase: nat, s: System, a: Action)
    requires At(phase, s) && Enabled(s, a) && (a.ServerReadsParams? || a.ServerHandles?)
    ensures Rank(Step(s, a)) < Rank(s)
  {
    hide Connected, SidesMatch, Told, Booked;
  }

  lemma ServerResultsStepDown(phase: nat, s: System)
    requires At(phase, s) && Enabled(s, ServerReadsResults)
    ensures Rank(Step(s, ServerReadsResults)) < Rank(s)
  {
    ServerInformed(phase, s);
    hide Connected, SidesMatch, Told, Booked, Absorb, Reports;
  }

  lemma AcceptStepsDown(phase: nat, s: System)
    requires At(phase, s) && Enabled(s, ServerAccepts)
    ensures Rank(Step(s, ServerAccepts)) < Rank(s)
  {
    hide SidesMatch, Told, DataOf, Range, Booked;
  }

  lemma ClientStepsDown(phase: nat, s: System, a: Action)
    requires At(phase, s) && Enabled(s, a) && (a.ClientHandles? || a.ClientEndsTest?)
    ensures Rank(Step(s, a)) < Rank(s)
  {
    hide Connected, SidesMatch, Told, Reports, Booked;
  }

  lemma ConnectStepsDown(phase: nat, s: System)
    requires At(phase, s) && Enabled(s, ClientConnects)
    ensures Rank(Step(s, ClientConnects)) < Rank(s)
  {
    hide SidesMatch, Told, Reports, DataOf, Range, Booked;
  }

  lemma ClientResultsStepDown(phase: nat, s: System)
    requires At(phase, s) && Enabled(s, ClientReadsResults)
    ensures Rank(Step(s, ClientReadsResults)) < Rank(s)
  {
    ClientInformed(phase, s);
    hide SidesMatch, Told, Absorb, Reports, DataOf, Range, Booked;
  }

  lemma CookieIsNoStep(phase: nat, s: System)
    requires At(phase, s) && Enabled(s, CookieArrives)
    ensures Rank(Step(s, CookieArrives)) == Rank(s)
  {
    FullWhenTotal(s.config, s.server);
    hide Range, SidesMatch, Told, DataOf;
  }

  lemma StepCounts(phase: nat, s: System, a: Action)
    requires At(phase, s) && Enabled(s, a)
    ensures RankMoves(s, a, Step(s, a))
  {
    hide At, Enabled, Step, Rank;
    if a.ServerAccepts? {
      AcceptStepsDown(phase, s);
    } else if a.ServerReadsResults? {
      ServerResultsStepDown(phase, s);
    } else if a.ServerReadsParams? || a.ServerHandles? {
      ServerStepsDown(phase, s, a);
    } else if a.ClientConnects? {
      ConnectStepsDown(phase, s);
    } else if a.ClientReadsResults? {
      ClientResultsStepDown(phase, s);
    } else if a.ClientHandles? || a.ClientEndsTest? {
      ClientStepsDown(phase, s, a);
    } else if a.CookieArrives? {
      CookieIsNoStep(phase, s);
    } else {
      StrangersCount(s, a);
    }
  }

  lemma StrangersCount(s: System, a: Action)
    requires Enabled(s, a) && (IsTraffic(a) || IsArrival(a) || a.StrangerSpeaks?)
    ensures RankMoves(s, a, Step(s, a))
  {
  }

  // ---------------------------------------------------------------------------------------------
  // Whole runs

  lemma StartsInStep(c: Config)
    ensures At(0, Init(c))
  {
    assert DataOf([Control]) == [];
  }

  lemma {:induction false} RunKeeps(s: System, run: seq<Action>)
    requires InStep(s) && Executable(s, run)
    ensures InStep(Execute(s, run))
    decreases |run|
  {
    hide At, Enabled, Step;
    if run != [] {
      var phase: nat :| At(phase, s);
      var next := StepKeeps(phase, s, run[0]);
      RunKeeps(Step(s, run[0]), run[1..]);
    }
  }

  /**
   * Every run, of any number of streams in any mode, stays in step; no handler ever meets a message it
   * does not know.
   */
  lemma RunsAreSafe(c: Config, run: seq<Action>)
    requires Executable(Init(c), run)
    ensures var s := Execute(Init(c), run);
      InStep(s) && !s.client.at.Failed? && !s.server.at.Failed?
  {
    StartsInStep(c);
    RunKeeps(Init(c), run);
    InStepIsSafe(Execute(Init(c), run));
    hide Executable, Execute, InStep;
  }

  lemma InStepIsSafe(s: System)
    requires InStep(s)
    ensures !s.client.at.Failed? && !s.server.at.Failed?
  {
    hide Connected, SidesMatch, Told, Booked;
  }

  /** The streams a connection joins carry the same id and opposite directions, and no id is given twice. */
  lemma StreamsPairUp(s: System, j: nat, k: nat)
    requires InStep(s) && k < |s.server.streams|
    ensures k < |s.client.streams| && s.client.streams[k].conn == s.server.streams[k].conn
    ensures s.client.streams[k].id == s.server.streams[k].id
    ensures s.client.streams[k].sender != s.server.streams[k].sender
    ensures j < |s.client.streams| ==> (s.client.streams[j].id == s.server.streams[k].id <==> j == k)
  {
    hide ViewOf, Chart, Told, Booked, DataOf, Range;
  }

  /** The direction of the `k`-th connection as the user asked for it: who sends on it? */
  ghost predicate ClientShouldSend(c: Config, k: nat) {
    || c.mode == Sender
    || (c.mode == Bidirectional && k < c.numStreams)
  }

  /**
   * The client sends in normal mode, the server in reverse mode, and in bidirectional mode the first
   * half of the connections carries the client's data and the second half the server's.
   */
  lemma DirectionsFollowMode(s: System)
    requires InStep(s)
    ensures forall k :: 0 <= k < |s.client.streams| ==> (s.client.streams[k].sender <==> ClientShouldSend(s.config, k))
    ensures forall k :: 0 <= k < |s.server.streams| ==> (s.server.streams[k].sender <==> !ClientShouldSend(s.config, k))
  {
    hide ViewOf, Chart, Told, Booked, DataOf, Range, Numbered;
  }

  /** Once the parameters are in, the server knows the mode as the opposite of the client's. */
  lemma ServerTakesOppositeMode(s: System)
    requires InStep(s) && s.server.at != ReadingParams && s.server.state != IPERF_START
    ensures s.server.numStreams == s.config.numStreams
    ensures s.config.mode == Sender <==> s.server.mode == Receiver
    ensures s.config.mode == Receiver <==> s.server.mode == Sender
    ensures s.config.mode == Bidirectional <==> s.server.mode == Bidirectional
  {
    hide SidesMatch, Told, DataOf, Range, Connected;
  }

  /** What the client tells the server about the test it was asked for. */
  lemma ParamsTellTheMode(s: System, i: nat)
    requires InStep(s) && i < |s.toServer| && s.toServer[i].Params?
    ensures s.toServer[i].parallel == s.config.numStreams
    ensures s.toServer[i].reverse <==> s.config.mode == Receiver
    ensures s.toServer[i].bidirectional <==> s.config.mode == Bidirectional
  {
    hide SidesMatch, Told, DataOf, Range, Connected, Booked;
  }

  /** A finished test: all streams were set up, nothing is in flight, and each side knows the other's counts. */
  lemma FinishedSidesAgree(s: System)
    requires InStep(s) && Finished(s)
    ensures |s.client.streams| == Total(s.config) == |s.server.streams| && s.toClient == [] == s.toServer
    ensures Heard(s.client.streams, s.server.streams) && Heard(s.server.streams, s.client.streams)
  {
    hide SidesMatch, Booked, DataOf, Range, Heard;
  }

  /** The server waits for a stranger's cookie, and the client for the server. */
  predicate Starved(s: System) {
    s.server.at.ReadingCookie? && s.client.state == CREATE_STREAMS && s.client.at.Looping?
  }

  /**
   * A reachable state has no step of the protocol left if and only if the test is finished, or a
   * stranger withholds the cookie that the server is reading while it sets up streams.
   */
  lemma OnlyFinishedTestsStop(s: System)
    requires InStep(s)
    ensures Finished(s) || Starved(s) <==> forall a :: IsProtocol(a) ==> !Enabled(s, a)
  {
    var phase: nat :| At(phase, s);
    if phase < LAST && !(phase == 5 && s.server.at.ReadingCookie?) {
      var a := CanStep(phase, s);
    }
    hide Connected, SidesMatch, Told, Booked;
  }

  lemma CanStep(phase: nat, s: System) returns (a: Action)
    requires At(phase, s) && phase < LAST && !(phase == 5 && s.server.at.ReadingCookie?)
    ensures IsProtocol(a) && Enabled(s, a)
  {
    a := if phase == 2 then ServerReadsParams
         else if phase == 4 then ClientConnects
         else if phase == 7 then ClientEndsTest
         else if phase == 8 || phase == 13 then ServerHandles
         else if phase == 10 then ServerReadsResults
         else if phase == 11 then ClientReadsResults
         else if phase == 0 || (phase == 5 && !AllAdmitted(s)) then ServerAccepts
         else ClientHandles;
    hide SidesMatch, Told, Booked;
  }

  // ---------------------------------------------------------------------------------------------
  // Strangers that withhold their cookie

  /** A silent stranger is ahead of a data connection in the queue, or of one still to be made. */
  predicate SilentAhead(queue: seq<Connection>, more: bool) {
    && queue != []
    && ((queue[0].Silent? && (more || DataOf(queue[1..]) != [])) || SilentAhead(queue[1..], more))
  }

  /** The server is reading a stranger's cookie, or will come to one before it has all the client's connections. */
  predicate Blocked(s: System) {
    || s.server.at.ReadingCookie?
    || (!AllAdmitted(s) && SilentAhead(s.queue, |s.client.streams| < Total(s.config)))
  }

  lemma {:induction false} DataBehindAll(queue: seq<Connection>, k: nat, more: bool)
    ensures SilentAhead(queue + [Data(k)], more) <==> SilentAhead(queue, true)
  {
    if queue == [] {
      assert queue + [Data(k)] == [Data(k)] && [Data(k)][1..] == [];
    } else {
      assert (queue + [Data(k)])[1..] == queue[1..] + [Data(k)];
      DataBehindAll(queue[1..], k, more);
      DataOfAppend(queue[1..], Data(k));
      assert DataOf([Data(k)]) == [k];
    }
  }

  lemma {:induction false} StrangerBehindAll(queue: seq<Connection>, x: Connection, more: bool)
    requires x == Stray || x == Silent
    ensures SilentAhead(queue + [x], more) <==> SilentAhead(queue, more) || (x == Silent && more)
  {
    assert DataOf([x]) == [];
    if queue == [] {
      assert queue + [x] == [x] && [x][1..] == [];
    } else {
      assert (queue + [x])[1..] == queue[1..] + [x];
      StrangerBehindAll(queue[1..], x, more);
      DataOfAppend(queue[1..], x);
    }
  }

  lemma {:induction false} AheadOfSomething(queue: seq<Connection>, more: bool)
    requires SilentAhead(queue, more)
    ensures more || DataOf(queue) != []
  {
    if !(queue[0].Silent? && (more || DataOf(queue[1..]) != [])) {
      AheadOfSomething(queue[1..], more);
    }
  }

  /** Once all streams are set up no stranger can hold the server up. */
  lemma LateIsFree(phase: nat, s: System)
    requires At(phase, s) && (phase >= 6 || AllAdmitted(s))
    ensures !Blocked(s)
  {
    hide SidesMatch, Told, Booked, DataOf, Range;
  }

  /** Nothing but a cookie ends a blockade, and the protocol itself never starts one. */
  ghost predicate BlockadeStays(s: System, a: Action, t: System) {
    && (!IsCookie(a) && Blocked(s) ==> Blocked(t))
    && (IsProtocol(a) && !Blocked(s) ==> !Blocked(t))
  }

  lemma ConnectKeepsBlockade(phase: nat, s: System)
    requires At(phase, s) && Enabled(s, ClientConnects)
    ensures BlockadeStays(s, ClientConnects, Step(s, ClientConnects))
  {
    DataBehindAll(s.queue, |s.client.streams|, |s.client.streams| + 1 < Total(s.config));
    hide At, DataOf;
  }

  lemma DataKeepsBlockade(phase: nat, s: System)
    requires At(phase, s) && Enabled(s, ServerAccepts) && phase > 0 && s.queue[0].Data?
    ensures BlockadeStays(s, ServerAccepts, Step(s, ServerAccepts))
  {
    DataIsExpected(phase, s);
    AdmissionSettles(phase, s);
    AdmitKeepsBooks(s.config, s.server, |s.server.streams|);
    var more := |s.client.streams| < Total(s.config);
    assert SilentAhead(s.queue, more) <==> SilentAhead(s.queue[1..], more);
    if SilentAhead(s.queue[1..], more) {
      AheadOfSomething(s.queue[1..], more);
    }
    hide At, Step, DataOf, SilentAhead, Admit, Booked;
  }

  lemma SilentKeepsBlockade(phase: nat, s: System)
    requires At(phase, s) && Enabled(s, ServerAccepts) && phase > 0 && s.queue[0].Silent?
    ensures BlockadeStays(s, ServerAccepts, Step(s, ServerAccepts))
  {
    SilentAccepted(phase, s);
    if phase >= 6 || AllAdmitted(s) {
      LateIsFree(phase, s);
      hide SidesMatch, Told, Booked, DataOf, Range, SilentAhead;
    } else {
      assert DataOf(s.queue) == DataOf(s.queue[1..]);
      hide SidesMatch, Told, Booked, DataOf, ViewOf;
    }
  }

  lemma StrayKeepsBlockade(phase: nat, s: System)
    requires At(phase, s) && Enabled(s, ServerAccepts) && !s.queue[0].Data? && !s.queue[0].Silent?
    ensures BlockadeStays(s, ServerAccepts, Step(s, ServerAccepts))
  {
    var more := |s.client.streams| < Total(s.config);
    assert SilentAhead(s.queue, more) <==> SilentAhead(s.queue[1..], more);
    if s.server.state == CREATE_STREAMS { FullWhenTotal(s.config, s.server); }
    hide SidesMatch, Told, DataOf, Range, SilentAhead, Chart;
  }

  lemma ArrivalKeepsBlockade(s: System, a: Action)
    requires IsArrival(a)
    ensures BlockadeStays(s, a, Step(s, a))
  {
    var x := if a.StrayConnects? then Stray else Silent;
    StrangerBehindAll(s.queue, x, |s.client.streams| < Total(s.config));
    hide SilentAhead;
  }

  lemma HandlersKeepBlockade(s: System, a: Action)
    requires Enabled(s, a)
    requires a.ServerReadsParams? || a.ServerHandles? || a.ClientHandles? || a.ClientEndsTest? || IsTraffic(a)
    ensures BlockadeStays(s, a, Step(s, a))
  {
    hide SilentAhead;
  }

  lemma ResultsKeepBlockade(phase: nat, s: System, a: Action)
    requires At(phase, s) && Enabled(s, a) && (a.ServerReadsResults? || a.ClientReadsResults?)
    ensures BlockadeStays(s, a, Step(s, a))
  {
    ResultsAreLate(phase, s, a);
    LateIsFree(phase, s);
    if a.ServerReadsResults? {
      ServerInformed(phase, s);
    } else {
      ClientInformed(phase, s);
    }
    LateIsFree(phase + 1, Step(s, a));
    hide At, Step, Blocked;
  }

  lemma ResultsAreLate(phase: nat, s: System, a: Action)
    requires At(phase, s) && Enabled(s, a) && (a.ServerReadsResults? || a.ClientReadsResults?)
    ensures phase >= 6
  {
    hide Connected, SidesMatch, Told, Booked;
  }

  lemma AcceptKeepsBlockade(phase: nat, s: System)
    requires At(phase, s) && Enabled(s, ServerAccepts)
    ensures BlockadeStays(s, ServerAccepts, Step(s, ServerAccepts))
  {
    hide BlockadeStays, Step;
    if phase == 0 {
      assert s.queue[0] == Control;
      StrayKeepsBlockade(phase, s);
    } else if s.queue[0].Data? {
      DataKeepsBlockade(phase, s);
    } else if s.queue[0].Silent? {
      SilentKeepsBlockade(phase, s);
    } else {
      StrayKeepsBlockade(phase, s);
    }
  }

  lemma StepKeepsBlockade(phase: nat, s: System, a: Action)
    requires At(phase, s) && Enabled(s, a)
    ensures BlockadeStays(s, a, Step(s, a))
  {
    hide At, Enabled, Step, Blocked;
    if a.ServerAccepts? {
      AcceptKeepsBlockade(phase, s);
    } else if a.ClientConnects? {
      ConnectKeepsBlockade(phase, s);
    } else if a.ServerReadsResults? || a.ClientReadsResults? {
      ResultsKeepBlockade(phase, s, a);
    } else if IsArrival(a) {
      ArrivalKeepsBlockade(s, a);
    } else if !IsCookie(a) {
      HandlersKeepBlockade(s, a);
    }
  }

  lemma WaitingIsBlocked(s: System)
    requires s.server.at.ReadingCookie?
    ensures Blocked(s)
  {
  }

  /** From wherever a run has come to, both sides can still reach IPERF_DONE, unless strangers block the server. */
  lemma {:induction false} CanFinish(s: System) returns (run: seq<Action>)
    requires InStep(s) && !Blocked(s)
    ensures Executable(s, run) && Finished(Execute(s, run)) && |run| <= Rank(s)
    ensures forall a :: a in run ==> IsProtocol(a)
    decreases Rank(s)
  {
    hide At, Enabled, Step, Rank, Blocked;
    var phase: nat :| At(phase, s);
    if phase < LAST {
      if s.server.at.ReadingCookie? { WaitingIsBlocked(s); }
      var a := CanStep(phase, s);
      var next := StepKeeps(phase, s, a);
      StepCounts(phase, s, a);
      StepKeepsBlockade(phase, s, a);
      var rest := CanFinish(Step(s, a));
      run := [a] + rest;
      assert run[1..] == rest;
    } else {
      LastIsFinished(phase, s);
      run := [];
    }
  }

  /** As long as no stranger sends its cookie, a blocked test never finishes, whatever else happens. */
  lemma {:induction false} BlockedRunsStay(s: System, run: seq<Action>)
    requires InStep(s) && Blocked(s) && Executable(s, run) && forall a :: a in run ==> !IsCookie(a)
    ensures Blocked(Execute(s, run)) && !Finished(Execute(s, run))
    decreases |run|
  {
    hide At, Enabled, Step, Blocked;
    var phase: nat :| At(phase, s);
    if run == [] {
      if Finished(s) { FinishedIsFree(phase, s); }
    } else {
      var next := StepKeeps(phase, s, run[0]);
      StepKeepsBlockade(phase, s, run[0]);
      BlockedRunsStay(Step(s, run[0]), run[1..]);
    }
  }

  lemma FinishedIsFree(phase: nat, s: System)
    requires At(phase, s) && Finished(s)
    ensures !Blocked(s)
  {
    LastIsFinished(phase, s);
    LateIsFree(phase, s);
    hide At, Blocked;
  }

  /** A run that takes the test to its end without the help of strangers. */
  ghost predicate Completes(s: System, run: seq<Action>) {
    Executable(s, run) && Finished(Execute(s, run)) && forall a :: a in run ==> !IsCookie(a)
  }

  /** Exactly the tests that no silent stranger blocks can be completed. */
  lemma CompletableUnlessBlocked(s: System)
    requires InStep(s)
    ensures (exists run :: Completes(s, run)) <==> !Blocked(s)
  {
    hide Blocked, InStep, Executable, Execute, Finished;
    if !Blocked(s) {
      var run := CanFinish(s);
      assert Completes(s, run);
    } else if exists run :: Completes(s, run) {
      var run :| Completes(s, run);
      BlockedRunsStay(s, run);
    }
  }

  /** A stranger without a cookie, connected before the client's data connections, blocks any test that has streams. */
  lemma OneSilentStrangerBlocks(c: Config)
    requires Total(c) > 0
    ensures Blocked(Step(Init(c), SilentConnects)) && !Blocked(Init(c))
  {
    assert [Control, Silent][1..] == [Silent] && [Control] + [Silent] == [Control, Silent];
    assert SilentAhead([Silent], true);
    assert [Control][1..] == [];
  }

  lemma LastIsFinished(phase: nat, s: System)
    requires At(phase, s)
    ensures phase >= LAST <==> Finished(s)
  {
    hide Connected, SidesMatch, Told, Booked;
  }

  function ProtocolSteps(run: seq<Action>): nat {
    if run == [] then 0 else (if IsProtocol(run[0]) then 1 else 0) + ProtocolSteps(run[1..])
  }

  function Strays(run: seq<Action>): nat {
    if run == [] then 0 else (if IsArrival(run[0]) then 1 else 0) + Strays(run[1..])
  }

  /** No livelock: strangers aside, a run has only so many steps of the protocol, however much traffic there is. */
  lemma {:induction false} StepsAreBounded(s: System, run: seq<Action>)
    requires InStep(s) && Executable(s, run)
    ensures ProtocolSteps(run) + Rank(Execute(s, run)) <= Rank(s) + Strays(run)
    decreases |run|
  {
    hide At, Enabled, Step, Rank;
    if run != [] {
      var phase: nat :| At(phase, s);
      var next := StepKeeps(phase, s, run[0]);
      StepCounts(phase, s, run[0]);
      StepsAreBounded(Step(s, run[0]), run[1..]);
    }
  }

  // ---------------------------------------------------------------------------------------------
  // The course of a test

  /** The states of the client and of the server, in the order of a test. */
  const CLIENT_STATES: seq<int> := [0, 9, 10, 1, 2, 4, 13, 16]
  const SERVER_STATES: seq<int> := [15, 9, 10, 2, 13, 14, 16]

  function ClientIndex(phase: nat): nat {
    if phase <= 1 then 0 else if phase <= 3 then 1 else if phase <= 5 then 2 else if phase == 6 then 3
    else if phase == 7 then 4 else if phase <= 9 then 5 else if phase <= 12 then 6 else 7
  }

  lemma ClientStateIs(phase: nat, s: System)
    requires At(phase, s)
    ensures s.client.state == CLIENT_STATES[ClientIndex(phase)]
  {
    hide Connected, SidesMatch, Told, Booked;
  }

  /** The states a side goes through in a run, each once for as long as it lasts. */
  ghost function Path(s: System, run: seq<Action>, client: bool): (p: seq<int>)
    requires Executable(s, run)
    ensures p != [] && p[0] == if client then s.client.state else s.server.state
    decreases |run|
  {
    var here := if client then s.client.state else s.server.state;
    if run == [] then [here]
    else
      var p := Path(Step(s, run[0]), run[1..], client);
      if p[0] == here then p else [here] + p
  }

  lemma Apart(i: nat, j: nat)
    ensures i < j < |CLIENT_STATES| ==> CLIENT_STATES[i] != CLIENT_STATES[j]
    ensures i < j < |SERVER_STATES| ==> SERVER_STATES[i] != SERVER_STATES[j]
  {
  }

  lemma PathGrows(states: seq<int>, i: nat, j: nat, last: nat, p: seq<int>, here: int)
    requires i <= j <= i + 1 && j <= last < |states| && p == states[j..last + 1] && here == states[i]
    requires j == i + 1 ==> states[i] != states[j]
    ensures (if p[0] == here then p else [here] + p) == states[i..last + 1]
  {
  }

  /** In every run the client goes through its states in order, and leaves none out. */
  lemma {:induction false} ClientCourse(phase: nat, s: System, run: seq<Action>) returns (last: nat)
    requires At(phase, s) && Executable(s, run)
    ensures ClientIndex(phase) <= last < |CLIENT_STATES|
    ensures Path(s, run, true) == CLIENT_STATES[ClientIndex(phase)..last + 1]
    ensures Execute(s, run).client.state == CLIENT_STATES[last]
    decreases |run|
  {
    hide At, Enabled, Step;
    ClientStateIs(phase, s);
    last := ClientIndex(phase);
    if run != [] {
      var next := StepKeeps(phase, s, run[0]);
      last := ClientCourse(next, Step(s, run[0]), run[1..]);
      Apart(ClientIndex(phase), ClientIndex(next));
      PathGrows(CLIENT_STATES, ClientIndex(phase), ClientIndex(next), last,
                Path(Step(s, run[0]), run[1..], true), s.client.state);
    }
  }

  function ServerIndex(state: int): nat {
    if state == 15 then 0 else if state == 9 then 1 else if state == 10 then 2 else if state == 2 then 3
    else if state == 13 then 4 else if state == 14 then 5 else 6
  }

  lemma ServerStateIs(phase: nat, s: System)
    requires At(phase, s)
    ensures s.server.state == SERVER_STATES[ServerIndex(s.server.state)]
    ensures ServerIndex(s.server.state) ==
      if phase == 0 then 0 else if phase <= 2 then 1 else if phase <= 5 then if AllAdmitted(s) then 3 else 2
      else if phase <= 8 then 3 else if phase <= 10 then 4 else if phase <= 13 then 5 else 6
  {
    hide Connected, SidesMatch, Told, Booked;
  }

  lemma StreamsNeverShrink(phase: nat, s: System, a: Action)
    requires At(phase, s) && Enabled(s, a) && 3 <= phase <= 5
    ensures |Step(s, a).server.streams| >= |s.server.streams|
  {
    assert !a.ServerReadsResults? by {
      hide Connected, SidesMatch, Told, Booked, Step;
    }
    hide At, Absorb, Reports, ViewOf, Chart;
  }

  lemma NoStreamsYet(phase: nat, s: System)
    requires At(phase, s)
    ensures phase <= 3 ==> s.server.streams == []
    ensures |s.server.streams| <= Total(s.config)
  {
    hide SidesMatch, Told, Booked, DataOf, Range, Chart;
  }

  lemma ServerMoves(phase: nat, s: System, a: Action, next: nat)
    requires At(phase, s) && Enabled(s, a) && phase <= next <= phase + 1 && At(next, Step(s, a)) && Total(s.config) > 0
    ensures ServerIndex(s.server.state) <= ServerIndex(Step(s, a).server.state) <= ServerIndex(s.server.state) + 1
  {
    ServerStateIs(phase, s);
    ServerStateIs(next, Step(s, a));
    NoStreamsYet(next, Step(s, a));
    ConfigStays(s, a);
    if 3 <= phase <= 5 {
      StreamsNeverShrink(phase, s, a);
    }
    hide At, Enabled, Step, ServerIndex;
  }

  lemma ConfigStays(s: System, a: Action)
    requires Enabled(s, a)
    ensures Step(s, a).config == s.config
  {
    hide Absorb, Reports, Admit, Moved;
  }

  /** In every run of a test with streams the server goes through its states in order, and leaves none out. */
  lemma {:induction false} ServerCourse(phase: nat, s: System, run: seq<Action>) returns (last: nat)
    requires At(phase, s) && Executable(s, run) && Total(s.config) > 0
    ensures ServerIndex(s.server.state) <= last < |SERVER_STATES|
    ensures Path(s, run, false) == SERVER_STATES[ServerIndex(s.server.state)..last + 1]
    ensures Execute(s, run).server.state == SERVER_STATES[last]
    decreases |run|
  {
    hide At, Enabled, Step, ServerIndex;
    ServerStateIs(phase, s);
    last := ServerIndex(s.server.state);
    if run != [] {
      var t := Step(s, run[0]);
      var next := StepKeeps(phase, s, run[0]);
      ConfigStays(s, run[0]);
      ServerMoves(phase, s, run[0], next);
      last := ServerCourse(next, t, run[1..]);
      Apart(ServerIndex(s.server.state), ServerIndex(t.server.state));
      PathGrows(SERVER_STATES, ServerIndex(s.server.state), ServerIndex(t.server.state), last,
                Path(t, run[1..], false), s.server.state);
    }
  }

  /** A test that is finished has taken both sides through all of their states, in order. */
  lemma FinishedTestsTookTheirCourse(c: Config, run: seq<Action>)
    requires Executable(Init(c), run) && Finished(Execute(Init(c), run))
    ensures Path(Init(c), run, true) == CLIENT_STATES
    ensures Total(c) > 0 ==> Path(Init(c), run, false) == SERVER_STATES
  {
    StartsInStep(c);
    var i := ClientCourse(0, Init(c), run);
    Apart(i, 7);
    hide Executable, Execute, Path, At;
    assert CLIENT_STATES[0..8] == CLIENT_STATES && SERVER_STATES[0..7] == SERVER_STATES;
    if Total(c) > 0 {
      var j := ServerCourse(0, Init(c), run);
      Apart(j, 6);
    }
  }
}
