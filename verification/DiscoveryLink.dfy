/** The discovery reply sent as frames: the host's table after the bytes went over the wire. */
module DiscoveryLink {
  import opened Words
  import opened IdvRecords
  import opened Discovery
  import Host = DiscoveryHost
  import opened AbfFrame
  import opened AbfParser
  import opened AbfLink

  const SERVICE := 16

  function Frames(ms: seq<seq<u8>>): seq<Frame> {
    seq(|ms|, i requires 0 <= i < |ms| => Frame(SERVICE, ms[i]))
  }

  /** The payloads of the delivered frames among some callbacks; each is handed to the session. */
  function Payloads(es: seq<Event>): seq<seq<u8>> {
    if es == [] then []
    else Payloads(es[..|es| - 1]) + (if es[|es| - 1].Delivered? then [es[|es| - 1].frame.payload] else [])
  }

  lemma {:induction false} PayloadsOfDeliveries(ms: seq<seq<u8>>)
    ensures Payloads(Deliveries(Frames(ms))) == ms
  {
    if ms != [] {
      var n := |ms| - 1;
      PayloadsOfDeliveries(ms[..n]);
      assert Deliveries(Frames(ms))[..n] == Deliveries(Frames(ms[..n]));
      assert ms == ms[..n] + [ms[n]];
    }
  }

  lemma ZeroMakesClean(m: seq<u8>, i: nat, capacity: nat)
    requires i < |m| <= capacity <= 255 && m[i] == 0
    ensures Clean(Frame(SERVICE, m), capacity)
  {
    CodeIsZeroIff(m);
  }

  /** A node's message holds the identifier ID, which is 0. */
  lemma NodeIsClean(n: Node, k: nat, capacity: nat)
    requires IsNode(n) && AllWritable(NodeRecords(n, k)) && |BytesAll(NodeRecords(n, k))| <= capacity <= 255
    ensures Clean(Frame(SERVICE, BytesAll(NodeRecords(n, k))), capacity)
  {
    hide IsNode, Clean, BytesAll;
    var rs := NodeRecords(n, k);
    assert rs == [rs[0]] + ([rs[1]] + rs[2..]);
    BytesCons(rs[1], rs[2..]);
    BytesCons(rs[0], [rs[1]] + rs[2..]);
    ZeroMakesClean(BytesAll(rs), 3, capacity);
  }

  lemma BracketIsClean(capacity: nat, marker: u8)
    requires 3 <= capacity <= 255
    ensures Clean(Frame(SERVICE, Bracket(capacity, marker)), capacity)
  {
    var rs := [Record(MARKER, [marker])];
    assert rs[..0] == [];
    assert Packed(capacity, rs) == Bytes(rs[0]);
    CodeIsZeroIff(Bracket(capacity, marker));
  }

  lemma ReplyIsClean(s: SessionInfo, capacity: nat)
    requires IsSession(s) && Host.Fits(s, capacity) && capacity <= 255
    ensures AllClean(Frames(Reply(s, capacity)), capacity)
  {
    NodesAreNodes(s);
    BracketIsClean(capacity, DISCOVER_REP);
    BracketIsClean(capacity, DISCOVER_REP + EXIT);
    hide IsSession, IsNode, NodeRecords, Nodes, Clean, Bracket, BytesAll, Packed;
    forall i | 0 <= i < |Nodes(s)|
      ensures Clean(Frame(SERVICE, Messages(s, capacity, |Nodes(s)|)[i]), capacity)
    {
      Host.NodeIsWritable(Nodes(s)[i], i);
      PackedFits(capacity, NodeRecords(Nodes(s)[i], i));
      NodeIsClean(Nodes(s)[i], i, capacity);
    }
  }

  /**
   * A hunting receiver with a buffer as large as the sender's ends up with the tree's objects, merged into what it
   * held; up to 256 nodes, exactly with the tree if and only if it held nothing foreign to it.
   */
  lemma RebuiltOverTheWire(p: Parser, h: Host.Handler, s: SessionInfo, capacity: nat)
    requires Fits(p) && p.state.HuntSync? && |p.buffer| == capacity
    requires IsSession(s) && Host.Fits(s, capacity)
    ensures AllClean(Frames(Reply(s, capacity)), capacity)
    ensures var log := Feed(p, WireAll(Frames(Reply(s, capacity)))).log;
            |log| >= |p.log| &&
            var objects := Host.OnMessages(h, Payloads(log[|p.log|..])).objects;
            && objects == Host.Updated(h.objects, Nodes(s), |Nodes(s)|)
            && (|Nodes(s)| <= 0x100 ==>
                  (objects == Host.Table(Nodes(s), |Nodes(s)|) <==> Host.NothingForeign(h.objects, Nodes(s))))
  {
    hide Host.Fits, IsSession, Reply, Nodes, AllClean, Frames, Feed, WireAll, Payloads, Host.OnMessages, Deliveries;
    ReplyIsClean(s, capacity);
    var fs := Frames(Reply(s, capacity));
    AllDelivered(p, fs);
    PayloadsOfDeliveries(Reply(s, capacity));
    Host.ReplyUpdates(h, s, capacity);
    if |Nodes(s)| <= 0x100 { Host.ReplyRebuilds(h, s, capacity); }
    assert (p.log + Deliveries(fs))[|p.log|..] == Deliveries(fs);
  }
}
