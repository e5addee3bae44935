/** The discovery reply of a device, and the table of objects a host rebuilds from it. */
module Discovery {
  import opened Words
  import opened IdvRecords

  // Record identifiers.
  const ID := 0
  const PARENT_ID := 1
  const META := 2
  const STREAM_COUNT := 3
  const CHANNEL_COUNT := 4
  const SAMPLETIME := 5
  const TICKS := 6
  const SCALE := 7
  const OFFSET := 8
  const MARKER := 0xFF

  // Markers; leaving a section sets the high bit.
  const DISCOVER_REP := 1
  const SESSION := 2
  const STREAM := 3
  const CHANNEL := 4
  const EXIT := 0x80

  // Numbers are the bytes the firmware copies into a record.
  datatype ChannelInfo = ChannelInfo(meta: seq<u8>, scale: seq<u8>, offset: seq<u8>)
  datatype StreamInfo = StreamInfo(meta: seq<u8>, sampleTime: seq<u8>, ticks: seq<u8>, channels: seq<ChannelInfo>)
  datatype SessionInfo = SessionInfo(meta: seq<u8>, streams: seq<StreamInfo>)

  predicate IsChannel(c: ChannelInfo) { |c.scale| == |c.offset| == 4 }

  predicate IsStream(s: StreamInfo) {
    |s.sampleTime| == |s.ticks| == 4 && forall i :: 0 <= i < |s.channels| ==> IsChannel(s.channels[i])
  }

  predicate IsSession(s: SessionInfo) {
    forall i :: 0 <= i < |s.streams| ==> IsStream(s.streams[i])
  }

  // ---------- The tree in preorder ----------

  /** A session, stream or channel: its marker, the position of its parent, and its own fields. */
  datatype Node = Node(marker: u8, parent: nat, fields: seq<Record>)

  /** A text whose length is stored in one byte. */
  function Text(meta: seq<u8>): (r: Record)
    ensures Writable(r)
  {
    Record(META, meta[..|meta| % 0x100])
  }

  function ChannelNode(c: ChannelInfo, parent: nat): Node {
    Node(CHANNEL, parent, [Text(c.meta), Record(SCALE, c.scale), Record(OFFSET, c.offset)])
  }

  function StreamNode(s: StreamInfo): Node {
    Node(STREAM, 0, [Text(s.meta), Record(CHANNEL_COUNT, [|s.channels| % 0x100]), Record(SAMPLETIME, s.sampleTime),
                     Record(TICKS, s.ticks)])
  }

  function SessionNode(s: SessionInfo): Node {
    Node(SESSION, 0, [Text(s.meta), Record(STREAM_COUNT, [|s.streams| % 0x100])])
  }

  function Channels(cs: seq<ChannelInfo>, parent: nat): seq<Node> {
    seq(|cs|, i requires 0 <= i < |cs| => ChannelNode(cs[i], parent))
  }

  /** Position of stream `i`. */
  function StreamAt(ss: seq<StreamInfo>, i: nat): (k: nat)
    requires i <= |ss|
    ensures k > i
  {
    if i == 0 then 1 else StreamAt(ss, i - 1) + 1 + |ss[i - 1].channels|
  }

  /** The first `n` streams with their channels. */
  function Streams(ss: seq<StreamInfo>, n: nat): (ns: seq<Node>)
    requires n <= |ss|
    ensures |ns| + 1 == StreamAt(ss, n)
  {
    if n == 0 then []
    else Streams(ss, n - 1) + [StreamNode(ss[n - 1])] + Channels(ss[n - 1].channels, StreamAt(ss, n - 1))
  }

  /** All nodes, each before its children. */
  function Nodes(s: SessionInfo): (ns: seq<Node>)
    ensures |ns| == StreamAt(s.streams, |s.streams|)
  {
    [SessionNode(s)] + Streams(s.streams, |s.streams|)
  }

  /** The records sent for a node; identifiers are positions in eight bits. */
  function NodeRecords(n: Node, k: nat): seq<Record> {
    [Record(MARKER, [n.marker]), Record(ID, [k % 0x100]), Record(PARENT_ID, [n.parent % 0x100])] + n.fields
    + [Record(MARKER, [(n.marker + EXIT) % 0x100])]
  }

  ghost predicate IsNode(n: Node) {
    && n.marker in {SESSION, STREAM, CHANNEL} && 0 < |n.fields| && AllWritable(n.fields)
    && (forall i :: 0 <= i < |n.fields| ==> PARENT_ID < n.fields[i].id < MARKER)
    && (forall i, j :: 0 <= i < j < |n.fields| ==> n.fields[i].id != n.fields[j].id)
  }

  /** The first `k` nodes, one message each, as far as a buffer of `capacity` bytes takes their records. */
  function Messages(s: SessionInfo, capacity: nat, k: nat): (ms: seq<seq<u8>>)
    requires IsSession(s) && k <= |Nodes(s)|
  {
    NodesAreNodes(s);
    var ns := Nodes(s);
    seq(k, i requires 0 <= i < k => assert IsNode(ns[i]); Packed(capacity, NodeRecords(ns[i], i)))
  }

  function Bracket(capacity: nat, marker: u8): seq<u8> {
    Packed(capacity, [Record(MARKER, [marker])])
  }

  /** The whole reply: an opening message, a message for each node in preorder, and a closing message. */
  function Reply(s: SessionInfo, capacity: nat): seq<seq<u8>>
    requires IsSession(s)
  {
    [Bracket(capacity, DISCOVER_REP)] + Messages(s, capacity, |Nodes(s)|) + [Bracket(capacity, DISCOVER_REP + EXIT)]
  }

  /** Opening and closing message of a reply, byte by byte. */
  lemma ReplyBrackets(s: SessionInfo, capacity: nat)
    requires IsSession(s) && capacity >= 3
    ensures var ms := Reply(s, capacity);
            |ms| == |Nodes(s)| + 2 && ms[0] == [0xFF, 1, 0x01] && ms[|ms| - 1] == [0xFF, 1, 0x81]
  {
    hide Nodes, Packed, NodeRecords, IsSession;
    BracketBytes(capacity, DISCOVER_REP);
    BracketBytes(capacity, DISCOVER_REP + EXIT);
  }

  lemma BracketBytes(capacity: nat, marker: u8)
    requires capacity >= 3
    ensures Bracket(capacity, marker) == [0xFF, 1, marker]
  {
    var rs := [Record(MARKER, [marker])];
    assert rs[..0] == [];
    assert Packed(capacity, rs) == Bytes(rs[0]);
  }

  lemma {:induction false} StreamsAreNodes(ss: seq<StreamInfo>, n: nat)
    requires n <= |ss| && forall i :: 0 <= i < |ss| ==> IsStream(ss[i])
    ensures forall k :: 0 <= k < |Streams(ss, n)| ==> IsNode(Streams(ss, n)[k]) && Streams(ss, n)[k].parent <= k
  {
    if n > 0 { StreamsAreNodes(ss, n - 1); }
  }

  lemma NodesAreNodes(s: SessionInfo)
    requires IsSession(s)
    ensures forall k :: 0 <= k < |Nodes(s)| ==> IsNode(Nodes(s)[k])
    ensures forall k :: 0 < k < |Nodes(s)| ==> Nodes(s)[k].parent < k
  {
    StreamsAreNodes(s.streams, |s.streams|);
  }

  /** Where a stream and its channels are in the preorder, and which parent they name. */
  lemma {:induction false} StreamsAt(ss: seq<StreamInfo>, n: nat, i: nat)
    requires i < n <= |ss|
    ensures var k := StreamAt(ss, i) - 1;
            && k + |ss[i].channels| < |Streams(ss, n)| && Streams(ss, n)[k] == StreamNode(ss[i])
            && forall x :: 0 <= x < |ss[i].channels| ==>
                 Streams(ss, n)[k + 1 + x] == ChannelNode(ss[i].channels[x], StreamAt(ss, i))
  {
    if i < n - 1 { StreamsAt(ss, n - 1, i); }
  }

  lemma NodesAt(s: SessionInfo, i: nat)
    requires i < |s.streams|
    ensures var k := StreamAt(s.streams, i);
            && k + |s.streams[i].channels| < |Nodes(s)| && Nodes(s)[k] == StreamNode(s.streams[i])
            && forall x :: 0 <= x < |s.streams[i].channels| ==>
                 Nodes(s)[k + 1 + x] == ChannelNode(s.streams[i].channels[x], k)
  {
    hide StreamNode, ChannelNode, SessionNode, StreamAt, Streams;
    StreamsAt(s.streams, |s.streams|, i);
    forall x | 0 <= x < |s.streams[i].channels|
      ensures Nodes(s)[StreamAt(s.streams, i) + 1 + x] == ChannelNode(s.streams[i].channels[x], StreamAt(s.streams, i))
    {
      assert Nodes(s)[StreamAt(s.streams, i) + 1 + x]
          == Streams(s.streams, |s.streams|)[StreamAt(s.streams, i) - 1 + 1 + x];
    }
  }

  /** The identifiers a device hands out are distinct exactly up to 256 nodes. */
  lemma IdsDistinctIff(s: SessionInfo)
    ensures (forall i, j :: 0 <= i < j < |Nodes(s)| ==> i % 0x100 != j % 0x100) <==> |Nodes(s)| <= 0x100
  {
    if |Nodes(s)| > 0x100 { assert 0 % 0x100 == 0x100 % 0x100; }
  }
}
