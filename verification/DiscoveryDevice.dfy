/** The device's side of discovery: it numbers its streams and channels and serialises them one message at a time. */
module DiscoveryDevice {
  import opened Words
  import opened IdvRecords
  import opened Discovery

  lemma OneMore(rs: seq<Record>, r: Record, capacity: nat)
    requires AllWritable(rs) && Writable(r)
    ensures AllWritable(rs + [r])
    ensures var packed := Packed(capacity, rs);
            Packed(capacity, rs + [r]) == if |packed| + |r.value| + 2 <= capacity then packed + Bytes(r) else packed
  {
    assert (rs + [r])[..|rs|] == rs;
  }

  /** Adds one record after the records `rs`. */
  method Put(w: Writer, ghost rs: seq<Record>, id: u8, value: seq<u8>) returns (err: Err, ghost more: seq<Record>)
    requires w.Valid() && |value| <= 255 && AllWritable(rs) && w.Written() == Packed(w.buf.Length, rs)
    modifies w, w.buf
    ensures more == rs + [Record(id, value)] && AllWritable(more)
    ensures w.Valid() && w.Written() == Packed(w.buf.Length, more)
    ensures err == BufferFull <==> |Packed(w.buf.Length, rs)| + |value| + 2 > w.buf.Length
  {
    more := rs + [Record(id, value)];
    OneMore(rs, Record(id, value), w.buf.Length);
    hide Packed, AllWritable;
    err := w.Add(id, value);
  }

  lemma PackedNothing(capacity: nat)
    ensures Packed(capacity, []) == []
  {
  }

  /** The four records every section starts with. */
  method BeginSection(w: Writer, marker: u8, id: u8, parentId: u8, meta: seq<u8>) returns (ghost rs: seq<Record>)
    requires w.Valid() && w.Written() == []
    modifies w, w.buf
    ensures rs == [Record(MARKER, [marker]), Record(ID, [id]), Record(PARENT_ID, [parentId]), Text(meta)]
    ensures AllWritable(rs)
    ensures w.Valid() && w.Written() == Packed(w.buf.Length, rs)
  {
    hide Packed;
    PackedNothing(w.buf.Length);
    var err;
    err, rs := Put(w, [], MARKER, [marker]);
    err, rs := Put(w, rs, ID, [id]);
    err, rs := Put(w, rs, PARENT_ID, [parentId]);
    err, rs := Put(w, rs, META, meta[..|meta| % 0x100]);
  }

  class Channel {
    const info: ChannelInfo
    var id: u8

    constructor (info: ChannelInfo)
      ensures this.info == info
    {
      this.info := info;
      id := 0;
    }

    method Serialize(w: Writer, parentId: u8, ghost k: nat, ghost parent: nat) returns (err: Err)
      requires IsChannel(info) && w.Valid() && w.Written() == [] && id == k % 0x100 && parentId == parent % 0x100
      modifies w, w.buf
      ensures w.Valid() && w.Written() == Packed(w.buf.Length, NodeRecords(ChannelNode(info, parent), k))
    {
      hide Packed, AllWritable, Writer.Valid, Writer.Written;
      ghost var rs := BeginSection(w, CHANNEL, id, parentId, info.meta);
      err, rs := Put(w, rs, SCALE, info.scale);
      err, rs := Put(w, rs, OFFSET, info.offset);
      err, rs := Put(w, rs, MARKER, [CHANNEL + EXIT]);
      assert rs == NodeRecords(ChannelNode(info, parent), k);
    }
  }

  /** A counter of eight bits keeps up with an unbounded one. */
  lemma NextInByte(id: u8, k: nat)
    requires id == k % 0x100
    ensures (id + 1) % 0x100 == (k + 1) % 0x100
  {
  }

  class Stream {
    const meta: seq<u8>
    const sampleTime: seq<u8>
    const ticks: seq<u8>
    const channels: seq<Channel>
    var id: u8

    constructor (meta: seq<u8>, sampleTime: seq<u8>, ticks: seq<u8>, channels: seq<Channel>)
      ensures this.meta == meta && this.sampleTime == sampleTime && this.ticks == ticks && this.channels == channels
    {
      this.meta, this.sampleTime, this.ticks, this.channels := meta, sampleTime, ticks, channels;
      id := 0;
    }

    ghost function Info(): StreamInfo {
      StreamInfo(meta, sampleTime, ticks, seq(|channels|, i requires 0 <= i < |channels| => channels[i].info))
    }

    ghost predicate Separate() {
      forall x, y :: 0 <= x < y < |channels| ==> channels[x] != channels[y]
    }

    ghost function Members(): set<object> {
      {this} + set x | 0 <= x < |channels| :: channels[x]
    }

    /** The stream has position `k`, and its channels the next positions, in eight bits. */
    ghost predicate NumberedFrom(k: nat)
      reads Members()
    {
      id == k % 0x100 && forall x :: 0 <= x < |channels| ==> channels[x].id == (k + 1 + x) % 0x100
    }

    twostate lemma StaysNumbered(k: nat)
      requires old(NumberedFrom(k)) && forall o :: o in Members() ==> unchanged(o)
      ensures NumberedFrom(k)
    {
    }

    method Number(first: u8, ghost k: nat) returns (next: u8)
      requires Separate() && first == k % 0x100
      modifies Members()
      ensures NumberedFrom(k) && next == (k + 1 + |channels|) % 0x100
    {
      id := first;
      next := (first + 1) % 0x100;
      for x := 0 to |channels|
        invariant id == first && next == (k + 1 + x) % 0x100
        invariant forall y :: 0 <= y < x ==> channels[y].id == (k + 1 + y) % 0x100
      {
        channels[x].id := next;
        NextInByte(next, k + 1 + x);
        next := (next + 1) % 0x100;
      }
    }

    method Serialize(w: Writer, parentId: u8, ghost k: nat) returns (err: Err)
      requires IsStream(Info()) && w.Valid() && w.Written() == [] && id == k % 0x100 && parentId == 0
      modifies w, w.buf
      ensures w.Valid() && w.Written() == Packed(w.buf.Length, NodeRecords(StreamNode(Info()), k))
    {
      hide Packed, AllWritable, Writer.Valid, Writer.Written;
      ghost var rs := BeginSection(w, STREAM, id, parentId, meta);
      err, rs := Put(w, rs, CHANNEL_COUNT, [|channels| % 0x100]);
      err, rs := Put(w, rs, SAMPLETIME, sampleTime);
      err, rs := Put(w, rs, TICKS, ticks);
      err, rs := Put(w, rs, MARKER, [STREAM + EXIT]);
      assert rs == NodeRecords(StreamNode(Info()), k);
    }
  }

  class Session {
    const meta: seq<u8>
    const streams: seq<Stream>
    const writer: Writer
    var id: u8
    /** The messages sent so far. */
    var sent: seq<seq<u8>>

    constructor (meta: seq<u8>, writer: Writer, streams: seq<Stream>)
      ensures this.meta == meta && this.writer == writer && this.streams == streams && sent == []
    {
      this.meta, this.writer, this.streams := meta, writer, streams;
      id, sent := 0, [];
    }

    ghost function Info(): SessionInfo {
      SessionInfo(meta, seq(|streams|, i requires 0 <= i < |streams| => streams[i].Info()))
    }

    /** The streams, and the channels of all streams, are different objects. */
    ghost predicate Separate() {
      && (forall i :: 0 <= i < |streams| ==> streams[i].Separate())
      && (forall i, j :: 0 <= i < j < |streams| ==> streams[i].Members() !! streams[j].Members())
    }

    ghost predicate Valid()
      reads writer
    {
      writer.Valid() && Separate() && IsSession(Info())
    }

    ghost function Members(): set<object> {
      set i, o | 0 <= i < |streams| && o in streams[i].Members() :: o
    }

    /** Position of stream `i`. */
    ghost function At(i: nat): nat
      requires i <= |streams|
    {
      StreamAt(Info().streams, i)
    }

    lemma AtNext(i: nat)
      requires i < |streams|
      ensures At(0) == 1 && At(i + 1) == At(i) + 1 + |streams[i].channels|
    {
    }

    /** The first `n` streams and all their channels are numbered in preorder. */
    ghost predicate Numbered(n: nat)
      requires n <= |streams|
      reads Members()
    {
      forall i :: 0 <= i < n ==> streams[i].NumberedFrom(At(i))
    }

    lemma Apart(i: nat)
      requires Separate() && i < |streams|
      ensures this as object !in streams[i].Members() && streams[i].Separate() && streams[i].Members() <= Members()
      ensures forall j, o :: 0 <= j < i && o in streams[j].Members() ==> o !in streams[i].Members()
    {
    }

    /** Numbers stream `i` and its channels. */
    method AnnonateStream(i: nat, cid: u8) returns (next: u8)
      requires Separate() && i < |streams| && Numbered(i) && cid == At(i) % 0x100
      modifies streams[i].Members()
      ensures Numbered(i + 1) && next == At(i + 1) % 0x100
    {
      hide Separate, Stream.Separate, Stream.NumberedFrom, Members, At;
      Apart(i);
      AtNext(i);
      label Before:
      next := streams[i].Number(cid, At(i));
      forall j | 0 <= j < i
        ensures streams[j].NumberedFrom(At(j))
      {
        streams[j].StaysNumbered@Before(At(j));
      }
    }

    /** Numbers the session, its streams and their channels in preorder, in eight bits. */
    method Annonate()
      requires Separate()
      modifies this`id, Members()
      ensures id == 0 && Numbered(|streams|)
    {
      hide Separate, Stream.Members, Stream.NumberedFrom, Members, Info;
      var cid: u8 := 0;
      id := cid;
      cid := (cid + 1) % 0x100;
      for i := 0 to |streams|
        invariant id == 0 && Numbered(i) && cid == At(i) % 0x100
      {
        Apart(i);
        cid := AnnonateStream(i, cid);
      }
    }

    method Send()
      requires writer.Valid()
      modifies this`sent
      ensures sent == old(sent) + [writer.Written()]
    {
      sent := sent + [writer.buf[..writer.idx]];
    }

    method Serialize(parentId: u8) returns (err: Err)
      requires IsSession(Info()) && writer.Valid() && writer.Written() == [] && id == 0 && parentId == 0
      modifies writer, writer.buf
      ensures writer.Valid() && writer.Written() == Packed(writer.buf.Length, NodeRecords(SessionNode(Info()), 0))
    {
      hide Packed, AllWritable, Writer.Valid, Writer.Written;
      ghost var rs := BeginSection(writer, SESSION, id, parentId, meta);
      err, rs := Put(writer, rs, STREAM_COUNT, [|streams| % 0x100]);
      err, rs := Put(writer, rs, MARKER, [SESSION + EXIT]);
      assert rs == NodeRecords(SessionNode(Info()), 0);
    }

    /** The reply up to the first `k` nodes. */
    ghost function Progress(k: nat): seq<seq<u8>>
      requires IsSession(Info()) && k <= |Nodes(Info())|
    {
      [Bracket(writer.buf.Length, DISCOVER_REP)] + Messages(Info(), writer.buf.Length, k)
    }

    lemma ProgressNext(k: nat)
      requires IsSession(Info()) && k < |Nodes(Info())|
      ensures IsNode(Nodes(Info())[k])
      ensures Progress(k + 1) == Progress(k) + [Packed(writer.buf.Length, NodeRecords(Nodes(Info())[k], k))]
    {
      NodesAreNodes(Info());
    }

    method SendBracket(marker: u8) returns (err: Err)
      requires writer.Valid() && writer.Written() == []
      modifies this`sent, writer, writer.buf
      ensures writer.Valid() && writer.Written() == []
      ensures sent == old(sent) + [Bracket(writer.buf.Length, marker)]
    {
      hide Packed;
      PackedNothing(writer.buf.Length);
      ghost var rs: seq<Record>;
      err, rs := Put(writer, [], MARKER, [marker]);
      assert rs == [Record(MARKER, [marker])];
      Send();
      writer.Reset();
    }

    method SendSession() returns (err: Err)
      requires IsSession(Info()) && writer.Valid() && writer.Written() == [] && id == 0
      modifies this`sent, writer, writer.buf
      ensures writer.Valid() && writer.Written() == []
      ensures sent == old(sent) + [Packed(writer.buf.Length, NodeRecords(Nodes(Info())[0], 0))]
    {
      err := Serialize(id);
      Send();
      writer.Reset();
    }

    /** The channel's place in the preorder, and what its section holds. */
    lemma ChannelPlace(i: nat, x: nat)
      requires IsSession(Info()) && i < |streams| && x < |streams[i].channels|
      ensures var k := At(i) + 1 + x;
              && k < |Nodes(Info())| && IsChannel(streams[i].channels[x].info)
              && Nodes(Info())[k] == ChannelNode(streams[i].channels[x].info, At(i))
    {
      NodesAt(Info(), i);
      assert IsStream(Info().streams[i]);
      assert Info().streams[i].channels[x] == streams[i].channels[x].info;
    }

    lemma StreamPlace(i: nat)
      requires IsSession(Info()) && i < |streams|
      ensures At(i) + |streams[i].channels| < |Nodes(Info())| && IsStream(streams[i].Info())
      ensures Nodes(Info())[At(i)] == StreamNode(streams[i].Info())
    {
      NodesAt(Info(), i);
      assert IsStream(Info().streams[i]);
    }

    method SendChannel(i: nat, x: nat, ghost base: seq<seq<u8>>) returns (err: Err)
      requires IsSession(Info()) && writer.Valid() && writer.Written() == []
      requires i < |streams| && x < |streams[i].channels| && streams[i].NumberedFrom(At(i))
      requires At(i) + 1 + x < |Nodes(Info())| && sent == base + Progress(At(i) + 1 + x)
      modifies this`sent, writer, writer.buf
      ensures writer.Valid() && writer.Written() == []
      ensures At(i) + 2 + x <= |Nodes(Info())| && sent == base + Progress(At(i) + 2 + x)
    {
      ChannelPlace(i, x);
      ProgressNext(At(i) + 1 + x);
      hide IsSession, Nodes, NodeRecords, ChannelNode, Packed, Progress, At, Info, Writer.Valid;
      err := streams[i].channels[x].Serialize(writer, streams[i].id, At(i) + 1 + x, At(i));
      Send();
      writer.Reset();
    }

    method SendStream(i: nat, ghost base: seq<seq<u8>>) returns (err: Err)
      requires IsSession(Info()) && writer.Valid() && writer.Written() == [] && id == 0
      requires i < |streams| && streams[i].NumberedFrom(At(i))
      requires At(i) <= |Nodes(Info())| && sent == base + Progress(At(i))
      modifies this`sent, writer, writer.buf
      ensures writer.Valid() && writer.Written() == []
      ensures At(i + 1) <= |Nodes(Info())| && sent == base + Progress(At(i + 1))
    {
      StreamPlace(i);
      AtNext(i);
      ProgressNext(At(i));
      hide IsSession, Nodes, NodeRecords, StreamNode, Packed, Progress, At;
      err := streams[i].Serialize(writer, id, At(i));
      Send();
      writer.Reset();
      err := SendChannels(i, base);
    }

    method SendChannels(i: nat, ghost base: seq<seq<u8>>) returns (err: Err)
      requires IsSession(Info()) && writer.Valid() && writer.Written() == []
      requires i < |streams| && streams[i].NumberedFrom(At(i))
      requires At(i) + 1 <= |Nodes(Info())| && sent == base + Progress(At(i) + 1)
      modifies this`sent, writer, writer.buf
      ensures writer.Valid() && writer.Written() == []
      ensures At(i + 1) <= |Nodes(Info())| && sent == base + Progress(At(i + 1))
    {
      hide IsSession, Nodes, Progress, At, Info, Writer.Valid, Writer.Written, Stream.NumberedFrom;
      AtNext(i);
      err := Ok;
      for z := 0 to |streams[i].channels|
        invariant writer.Valid() && writer.Written() == [] && streams[i].NumberedFrom(At(i))
        invariant At(i) + 1 + z <= |Nodes(Info())| && sent == base + Progress(At(i) + 1 + z)
      {
        ChannelPlace(i, z);
        label Before:
        err := SendChannel(i, z, base);
        streams[i].StaysNumbered@Before(At(i));
      }
    }

    lemma MembersApart()
      ensures this as object !in Members() && writer as object !in Members() && writer.buf as object !in Members()
    {
    }

    lemma WholeReply()
      requires IsSession(Info())
      ensures Progress(0) == [Bracket(writer.buf.Length, DISCOVER_REP)]
      ensures At(|streams|) == |Nodes(Info())| && Nodes(Info())[0] == SessionNode(Info())
      ensures Reply(Info(), writer.buf.Length)
           == Progress(|Nodes(Info())|) + [Bracket(writer.buf.Length, DISCOVER_REP + EXIT)]
    {
    }

    lemma FirstAt()
      ensures At(0) == 1
    {
    }

    twostate lemma StaysNumbered(n: nat)
      requires n <= |streams| && old(Numbered(n))
      requires forall i :: 0 <= i < |streams| ==> unchanged(streams[i])
      requires forall i, x :: 0 <= i < |streams| && 0 <= x < |streams[i].channels| ==> unchanged(streams[i].channels[x])
      ensures Numbered(n)
    {
      hide At;
      forall i | 0 <= i < n
        ensures streams[i].NumberedFrom(At(i))
      {
        assert old(streams[i].NumberedFrom(At(i)));
      }
    }

    method SendStreams(ghost base: seq<seq<u8>>) returns (err: Err)
      requires IsSession(Info()) && writer.Valid() && writer.Written() == [] && id == 0 && Numbered(|streams|)
      requires 1 <= |Nodes(Info())| && sent == base + Progress(1)
      modifies this`sent, writer, writer.buf
      ensures writer.Valid() && writer.Written() == [] && id == 0 && Numbered(|streams|)
      ensures At(|streams|) <= |Nodes(Info())| && sent == base + Progress(At(|streams|))
    {
      FirstAt();
      hide IsSession, Nodes, Members, Stream.NumberedFrom, Progress, At, Info, Writer.Valid, Writer.Written;
      err := Ok;
      for i := 0 to |streams|
        invariant writer.Valid() && writer.Written() == [] && id == 0 && Numbered(|streams|)
        invariant At(i) <= |Nodes(Info())| && sent == base + Progress(At(i))
      {
        label Before:
        err := SendStream(i, base);
        StaysNumbered@Before(|streams|);
      }
    }

    /** The opening message and the session's own. */
    method SendHead() returns (err: Err)
      requires IsSession(Info()) && writer.Valid() && id == 0
      modifies this`sent, writer, writer.buf
      ensures writer.Valid() && writer.Written() == []
      ensures 1 <= |Nodes(Info())| && sent == old(sent) + Progress(1)
    {
      hide IsSession, Nodes, NodeRecords, Packed, Progress, Bracket, Writer.Written;
      WholeReply();
      ProgressNext(0);
      writer.Reset();
      err := SendBracket(DISCOVER_REP);
      err := SendSession();
    }

    /** Sends the whole reply for a numbered tree. */
    method SendReply() returns (err: Err)
      requires IsSession(Info()) && writer.Valid() && id == 0 && Numbered(|streams|)
      modifies this`sent, writer, writer.buf
      ensures writer.Valid() && sent == old(sent) + Reply(Info(), writer.buf.Length) && id == 0 && Numbered(|streams|)
    {
      hide IsSession, Nodes, Packed, Members, Numbered, Progress, Reply, At, Info, Bracket, Writer.Written;
      WholeReply();
      label Before:
      ghost var base := sent;
      err := SendHead();
      StaysNumbered@Before(|streams|);
      label Sent:
      err := SendStreams(base);
      err := SendBracket(DISCOVER_REP + EXIT);
      StaysNumbered@Sent(|streams|);
    }

    /** Numbers the tree and sends the whole reply. */
    method DiscoveryRespond() returns (err: Err)
      requires Separate() && IsSession(Info()) && writer.Valid()
      modifies this`id, this`sent, Members(), writer, writer.buf
      ensures writer.Valid() && id == 0 && Numbered(|streams|)
      ensures sent == old(sent) + Reply(Info(), writer.buf.Length)
    {
      MembersApart();
      hide Separate, IsSession, Members, Stream.NumberedFrom, Info, Reply, At;
      Annonate();
      err := SendReply();
    }
  }
}
