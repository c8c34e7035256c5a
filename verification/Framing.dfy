/** JSON messages on the control connection: a four-byte big-endian length, then the unformatted text. */
module Framing {
  import opened Bytes
  import opened JsonTree
  import opened JsonParse
  import opened JsonRoundTrip

  const WORD: nat := 0x1_0000_0000

  /** `htonl` of an unsigned 32-bit value. */
  function BigEndian(n: nat): (r: seq<byte>)
    requires n < WORD
    ensures |r| == 4
  {
    [n / 0x100_0000, n / 0x1_0000 % 0x100, n / 0x100 % 0x100, n % 0x100]
  }

  /** `ntohl` */
  function FromBigEndian(s: seq<byte>): (n: nat)
    requires |s| == 4
    ensures n < WORD
  {
    Word(s[0], s[1], s[2], s[3])
  }

  function Word(a: nat, b: nat, c: nat, d: nat): nat {
    ((a * 0x100 + b) * 0x100 + c) * 0x100 + d
  }

  lemma BigEndianRoundTrip(n: nat)
    requires n < WORD
    ensures FromBigEndian(BigEndian(n)) == n
  {
    assert n / 0x1_0000 == n / 0x100 / 0x100 && n / 0x100_0000 == n / 0x100 / 0x100 / 0x100;
  }

  /** The value of octets in network order: the most significant one comes first. */
  function NetworkValue(s: seq<byte>): nat {
    if s == [] then 0 else NetworkValue(s[..|s| - 1]) * 0x100 + s[|s| - 1]
  }

  lemma NetworkValueOfFour(s: seq<byte>)
    requires |s| == 4
    ensures NetworkValue(s) == Word(s[0], s[1], s[2], s[3])
  {
    assert s[..3][..2] == s[..2] && s[..2][..1] == s[..1] && s[..1][..0] == [];
    assert NetworkValue(s[..1]) == Word(0, 0, 0, s[0]);
    assert NetworkValue(s[..2]) == Word(0, 0, s[0], s[1]);
    assert NetworkValue(s[..3]) == Word(0, s[0], s[1], s[2]);
  }

  /** Words go over the wire, and are read from it, with the most significant octet first. */
  lemma WordsAreInNetworkOrder(n: nat, s: seq<byte>)
    requires n < WORD && |s| == 4
    ensures NetworkValue(BigEndian(n)) == n && FromBigEndian(s) == NetworkValue(s)
  {
    NetworkValueOfFour(BigEndian(n));
    NetworkValueOfFour(s);
    BigEndianRoundTrip(n);
    hide BigEndian, NetworkValue;
  }

  /** What `JSON_write` puts on the connection; the length is cut to 32 bits. */
  function JsonWrite(j: Json): seq<byte> {
    var text := Text(UNFORMATTED, j, 0);
    var hsize := |text| % WORD;
    BigEndian(hsize) + text[..hsize]
  }

  /** A frame is the length of the unformatted text in network order, and that text. */
  lemma FrameOnTheWire(j: Json)
    requires |Text(UNFORMATTED, j, 0)| < WORD
    ensures |JsonWrite(j)| >= 4 && NetworkValue(JsonWrite(j)[..4]) == |JsonWrite(j)| - 4
    ensures JsonWrite(j)[4..] == Text(UNFORMATTED, j, 0)
  {
    var text := Text(UNFORMATTED, j, 0);
    hide Text, BigEndian, NetworkValue, FromBigEndian;
    FrameIs(j);
    hide JsonWrite;
    WordsAreInNetworkOrder(|text|, BigEndian(0));
    CutConcat(BigEndian(|text|), text);
  }

  lemma FrameIs(j: Json)
    requires |Text(UNFORMATTED, j, 0)| < WORD
    ensures JsonWrite(j) == BigEndian(|Text(UNFORMATTED, j, 0)|) + Text(UNFORMATTED, j, 0)
  {
    hide Text, BigEndian;
    var text := Text(UNFORMATTED, j, 0);
    SmallRemainder(|text|);
    assert text[..|text|] == text;
  }

  lemma SmallRemainder(n: nat)
    requires n < WORD
    ensures n % WORD == n
  {
  }

  /** A message read off the connection, and what is left on it. */
  datatype Received = NoMessage | Message(json: Option<Json>, rest: seq<byte>)

  /** `JSON_read`: NoMessage while the announced bytes have not all arrived. */
  function JsonRead(stream: seq<byte>): Received {
    if |stream| < 4 then NoMessage else
    var hsize := FromBigEndian(stream[..4]);
    if |stream| < 4 + hsize then NoMessage
    else Message(Parse(stream[4..4 + hsize]), stream[4 + hsize..])
  }

  /**
   * What one side writes the other side reads, whatever follows on the connection: the message is
   * taken off whole, and it is the same tree exactly when it nests at most 1000 deep.
   */
  lemma JsonExchange(j: Json, rest: seq<byte>)
    requires Printable(j) && |Text(UNFORMATTED, j, 0)| < WORD - 1
    ensures JsonRead(JsonWrite(j) + rest) == Message(if Nesting(j) <= NESTING_LIMIT then Some(j) else None, rest)
  {
    hide Text, ParseWithOpts, BigEndian, FromBigEndian;
    var text := Text(UNFORMATTED, j, 0);
    BigEndianRoundTrip(|text|);
    var stream := JsonWrite(j) + rest;
    assert text[..|text|] == text;
    Assoc(BigEndian(|text|), text, rest);
    CutConcat(BigEndian(|text|), text + rest);
    CutConcat(text, rest);
    assert stream[4..4 + |text|] == stream[4..][..|text|] && stream[4 + |text|..] == stream[4..][|text|..];
    PrintParseRoundTrip(UNFORMATTED, j, false);
  }

  /** The frames a sequence of messages puts on the connection. */
  function WriteAll(js: seq<Json>): seq<byte> {
    if js == [] then [] else JsonWrite(js[0]) + WriteAll(js[1..])
  }

  /** Reads `n` messages in order. */
  function ReadAll(stream: seq<byte>, n: nat): Option<seq<Json>> {
    if n == 0 then Some([]) else
    match JsonRead(stream)
    case NoMessage => None
    case Message(json, rest) =>
      if json == None || ReadAll(rest, n - 1) == None then None
      else Some([json.value] + ReadAll(rest, n - 1).value)
  }

  /** Messages arrive in order and unmixed, however many are queued on the connection. */
  lemma {:induction false} FramesKeepApart(js: seq<Json>)
    requires forall i :: 0 <= i < |js| ==>
      Printable(js[i]) && |Text(UNFORMATTED, js[i], 0)| < WORD - 1 && Nesting(js[i]) <= NESTING_LIMIT
    ensures ReadAll(WriteAll(js), |js|) == Some(js)
  {
    hide JsonRead, JsonWrite, Text;
    if js != [] {
      JsonExchange(js[0], WriteAll(js[1..]));
      FramesKeepApart(js[1..]);
      assert [js[0]] + js[1..] == js;
    }
  }
}
