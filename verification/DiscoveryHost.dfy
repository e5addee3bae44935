/** The host's handler: it rebuilds a table of objects from the records it receives. */
module DiscoveryHost {
  import opened Words
  import opened IdvRecords
  import opened Discovery

  datatype Object = Object(pid: u8, marker: u8, fields: map<u8, seq<u8>>)

  /** The handler between records. A field belongs to the object whose identifier came last in this section. */
  datatype Handler = Handler(objects: map<u8, Object>, id: u8, pid: u8, hasId: bool, hasPid: bool, mark: u8)

  /** As the table's index operator: an absent object is created empty. */
  function ObjectAt(h: Handler, id: u8): Object {
    if id in h.objects then h.objects[id] else Object(0, 0, map[])
  }

  function WithField(o: Object, field: u8, value: seq<u8>): Object {
    o.(fields := o.fields[field := value])
  }

  /** A value as one byte; a value of another length leaves the variable as it was. */
  function AsByte(value: seq<u8>, was: u8): u8 {
    if |value| == 1 then value[0] else was
  }

  function OnMark(h: Handler, marker: u8, entry: bool): Handler {
    if marker == DISCOVER_REP then h
    else if entry then h.(mark := marker, hasId := false, hasPid := false)
    else h.(hasId := false, hasPid := false)
  }

  function OnField(h: Handler, r: Record): Handler {
    match r.id
    case 0 =>
      var id := AsByte(r.value, h.id);
      h.(id := id, hasId := true, objects := h.objects[id := WithField(ObjectAt(h, id), ID, [id]).(marker := h.mark)])
    case 1 =>
      var g := h.(pid := AsByte(r.value, h.pid), hasPid := true);
      if g.hasId then
        var o := WithField(ObjectAt(g, g.id), PARENT_ID, [g.pid]).(marker := g.mark, pid := g.pid);
        g.(objects := g.objects[g.id := o])
      else
        g
    case _ =>
      if h.hasId then h.(objects := h.objects[h.id := WithField(ObjectAt(h, h.id), r.id, r.value)]) else h
  }

  function OnRecord(h: Handler, r: Record): Handler {
    if r.id == MARKER then
      var m := AsByte(r.value, 0xFF);
      OnMark(h, m % 0x80, m < 0x80)
    else
      OnField(h, r)
  }

  function OnRecords(h: Handler, rs: seq<Record>): Handler {
    if rs == [] then h else OnRecord(OnRecords(h, rs[..|rs| - 1]), rs[|rs| - 1])
  }

  function OnMessages(h: Handler, ms: seq<seq<u8>>): Handler {
    if ms == [] then h else OnRecords(OnMessages(h, ms[..|ms| - 1]), Parse(ms[|ms| - 1]))
  }

  // ---------- What the table should hold ----------

  function FieldsOf(n: Node, k: nat, i: nat): map<u8, seq<u8>>
    requires i <= |n.fields|
  {
    if i == 0 then map[ID := [k % 0x100], PARENT_ID := [n.parent % 0x100]]
    else FieldsOf(n, k, i - 1)[n.fields[i - 1].id := n.fields[i - 1].value]
  }

  function ObjectOf(n: Node, k: nat): Object {
    Object(n.parent % 0x100, n.marker, FieldsOf(n, k, |n.fields|))
  }

  /** The fields a table holds for an identifier. */
  function Known(t: map<u8, Object>, id: u8): map<u8, seq<u8>> {
    if id in t then t[id].fields else map[]
  }

  /** A table after the section of node `k`: fields already there stay unless the node has them too. */
  function Merged(t: map<u8, Object>, n: Node, k: nat): map<u8, Object> {
    t[k % 0x100 := Object(n.parent % 0x100, n.marker, Known(t, k % 0x100) + FieldsOf(n, k, |n.fields|))]
  }

  /** A table after the sections of the first `k` nodes. */
  function Updated(t: map<u8, Object>, ns: seq<Node>, k: nat): map<u8, Object>
    requires k <= |ns|
  {
    if k == 0 then t else Merged(Updated(t, ns, k - 1), ns[k - 1], k - 1)
  }

  /** The first `k` nodes, each under its position. */
  function Table(ns: seq<Node>, k: nat): map<u8, Object>
    requires k <= |ns| && k <= 0x100
  {
    map i: u8 | 0 <= i < k :: ObjectOf(ns[i], i)
  }

  /** An object has the fields of its node and no others. */
  lemma {:induction false} FieldsMeaning(n: Node, k: nat, i: nat)
    requires IsNode(n) && i <= |n.fields|
    ensures var f := FieldsOf(n, k, i);
            && ID in f && f[ID] == [k % 0x100] && PARENT_ID in f && f[PARENT_ID] == [n.parent % 0x100]
            && (forall j :: 0 <= j < i ==> n.fields[j].id in f && f[n.fields[j].id] == n.fields[j].value)
            && (forall x :: x in f ==> x == ID || x == PARENT_ID || exists j :: 0 <= j < i && n.fields[j].id == x)
  {
    if i > 0 {
      FieldsMeaning(n, k, i - 1);
      OwnFieldIsNew(n, i - 1);
      hide IsNode;
      var f, g := FieldsOf(n, k, i - 1), FieldsOf(n, k, i);
      assert g == f[n.fields[i - 1].id := n.fields[i - 1].value];
      hide FieldsOf;
      forall x | x in g && x != ID && x != PARENT_ID
        ensures exists j :: 0 <= j < i && n.fields[j].id == x
      {
        if x == n.fields[i - 1].id {
        } else {
          var j :| 0 <= j < i - 1 && n.fields[j].id == x;
        }
      }
    }
  }

  lemma OwnFieldIsNew(n: Node, i: nat)
    requires IsNode(n) && i < |n.fields|
    ensures PARENT_ID < n.fields[i].id < MARKER
    ensures forall j :: 0 <= j < i ==> n.fields[j].id != n.fields[i].id
  {
  }

  // ---------- Rebuilding ----------

  /** The handler inside the section of node `k`, after `i` of its own fields. */
  ghost predicate Inside(h: Handler, before: map<u8, Object>, n: Node, k: nat, i: nat)
    requires i <= |n.fields|
  {
    && h.hasId && h.id == k % 0x100 && h.mark == n.marker
    && var o := Object(n.parent % 0x100, n.marker, Known(before, k % 0x100) + FieldsOf(n, k, i));
       h.objects == before[k % 0x100 := o]
  }

  lemma OnRecordsAppend(h: Handler, rs: seq<Record>, r: Record)
    ensures OnRecords(h, rs + [r]) == OnRecord(OnRecords(h, rs), r)
  {
    assert (rs + [r])[..|rs|] == rs;
  }

  function Opening(n: Node, k: nat): seq<Record> {
    [Record(MARKER, [n.marker]), Record(ID, [k % 0x100]), Record(PARENT_ID, [n.parent % 0x100])]
  }

  lemma OnThree(h: Handler, a: Record, b: Record, c: Record)
    ensures OnRecords(h, [a, b, c]) == OnRecord(OnRecord(OnRecord(h, a), b), c)
  {
    hide OnRecord;
    assert [a, b, c][..2] == [a, b] && [a, b][..1] == [a] && [a][..0] == [];
    assert OnRecords(h, []) == h;
    assert OnRecords(h, [a]) == OnRecord(h, a);
    assert OnRecords(h, [a, b]) == OnRecord(OnRecord(h, a), b);
  }

  /** Marker, identifier and parent of a section, taken together. */
  lemma HeadRead(h: Handler, n: Node, k: nat)
    requires n.marker in {SESSION, STREAM, CHANNEL}
    ensures var id, parent := k % 0x100, n.parent % 0x100;
            var o := WithField(WithField(ObjectAt(h, id), ID, [id]), PARENT_ID, [parent]);
            OnRecord(OnRecord(OnRecord(h, Record(MARKER, [n.marker])), Record(ID, [id])), Record(PARENT_ID, [parent]))
            == Handler(h.objects[id := Object(parent, n.marker, o.fields)], id, parent, true, true, n.marker)
  {
  }

  lemma HeadFields(o: Object, n: Node, k: nat)
    ensures WithField(WithField(o, ID, [k % 0x100]), PARENT_ID, [n.parent % 0x100]).fields
         == o.fields + FieldsOf(n, k, 0)
  {
  }

  lemma OpeningRead(h: Handler, n: Node, k: nat)
    requires IsNode(n)
    ensures Inside(OnRecords(h, Opening(n, k)), h.objects, n, k, 0)
  {
    hide OnRecord, OnRecords, WithField, FieldsOf;
    OnThree(h, Record(MARKER, [n.marker]), Record(ID, [k % 0x100]), Record(PARENT_ID, [n.parent % 0x100]));
    HeadRead(h, n, k);
    HeadFields(ObjectAt(h, k % 0x100), n, k);
  }

  lemma FieldRead(h: Handler, before: map<u8, Object>, n: Node, k: nat, i: nat)
    requires IsNode(n) && i < |n.fields| && Inside(h, before, n, k, i)
    ensures Inside(OnRecord(h, n.fields[i]), before, n, k, i + 1)
  {
    hide IsNode;
    OwnFieldIsNew(n, i);
    var known := Known(before, k % 0x100);
    assert (known + FieldsOf(n, k, i))[n.fields[i].id := n.fields[i].value] == known + FieldsOf(n, k, i + 1);
  }

  lemma {:induction false} FieldsRead(h: Handler, n: Node, k: nat, i: nat)
    requires IsNode(n) && i <= |n.fields|
    ensures Inside(OnRecords(h, Opening(n, k) + n.fields[..i]), h.objects, n, k, i)
  {
    hide Inside, IsNode, OnRecord, Opening;
    if i == 0 {
      OpeningRead(h, n, k);
      assert Opening(n, k) + n.fields[..0] == Opening(n, k);
    } else {
      FieldsRead(h, n, k, i - 1);
      OnRecordsAppend(h, Opening(n, k) + n.fields[..i - 1], n.fields[i - 1]);
      assert Opening(n, k) + n.fields[..i] == Opening(n, k) + n.fields[..i - 1] + [n.fields[i - 1]];
      FieldRead(OnRecords(h, Opening(n, k) + n.fields[..i - 1]), h.objects, n, k, i - 1);
    }
  }

  /** The message of a node sets its object, and its object alone, to parent, marker and fields of the node. */
  lemma NodeRebuilt(h: Handler, n: Node, k: nat)
    requires IsNode(n)
    ensures OnRecords(h, NodeRecords(n, k)).objects == Merged(h.objects, n, k)
  {
    FieldsRead(h, n, k, |n.fields|);
    var rs, last := Opening(n, k) + n.fields, Record(MARKER, [(n.marker + EXIT) % 0x100]);
    assert n.fields[..|n.fields|] == n.fields;
    OnRecordsAppend(h, rs, last);
    assert NodeRecords(n, k) == rs + [last];
  }

  /** Every record of the reply fits the device's buffer, and texts fit a record. */
  ghost predicate Fits(s: SessionInfo, capacity: nat)
    requires IsSession(s)
  {
    NodesAreNodes(s);
    && capacity >= 3
    && forall k :: 0 <= k < |Nodes(s)| ==>
         assert IsNode(Nodes(s)[k]);
         |BytesAll(NodeRecords(Nodes(s)[k], k))| <= capacity
  }

  lemma {:induction false} OnMessagesSplit(h: Handler, a: seq<seq<u8>>, b: seq<seq<u8>>)
    ensures OnMessages(h, a + b) == OnMessages(OnMessages(h, a), b)
  {
    hide OnRecords, Parse;
    if b == [] {
      assert a + b == a;
    } else {
      var n := |b| - 1;
      assert (a + b)[..|a + b| - 1] == a + b[..n];
      OnMessagesSplit(h, a, b[..n]);
    }
  }

  lemma NodeIsWritable(n: Node, k: nat)
    requires IsNode(n)
    ensures AllWritable(NodeRecords(n, k))
  {
  }

  lemma RecordsArrive(rs: seq<Record>, capacity: nat)
    requires AllWritable(rs) && |BytesAll(rs)| <= capacity
    ensures Parse(Packed(capacity, rs)) == rs
  {
    hide Parse, Packed;
    PackedFits(capacity, rs);
    ReadAllBack(rs);
  }

  /** The last of the first `k` messages carries the records of its node. */
  lemma NodeArrives(s: SessionInfo, capacity: nat, k: nat)
    requires IsSession(s) && Fits(s, capacity) && 0 < k <= |Nodes(s)|
    ensures IsNode(Nodes(s)[k - 1])
    ensures Parse(Messages(s, capacity, k)[k - 1]) == NodeRecords(Nodes(s)[k - 1], k - 1)
    ensures Messages(s, capacity, k)[..k - 1] == Messages(s, capacity, k - 1)
  {
    NodesAreNodes(s);
    hide IsNode, Parse, Packed, NodeRecords, Nodes;
    var n := Nodes(s)[k - 1];
    NodeIsWritable(n, k - 1);
    RecordsArrive(NodeRecords(n, k - 1), capacity);
  }

  lemma {:induction false} MessagesRebuild(h: Handler, s: SessionInfo, capacity: nat, k: nat)
    requires IsSession(s) && Fits(s, capacity) && k <= |Nodes(s)|
    ensures OnMessages(h, Messages(s, capacity, k)).objects == Updated(h.objects, Nodes(s), k)
  {
    hide IsSession, IsNode, OnRecords, Parse, NodeRecords, Merged, Nodes;
    if k > 0 {
      var ns, ms := Nodes(s), Messages(s, capacity, k);
      hide Messages, Fits;
      MessagesRebuild(h, s, capacity, k - 1);
      NodeArrives(s, capacity, k);
      var g := OnMessages(h, Messages(s, capacity, k - 1));
      NodeRebuilt(g, ns[k - 1], k - 1);
    }
  }

  lemma BracketIgnored(h: Handler, capacity: nat, marker: u8)
    requires capacity >= 3 && (marker == DISCOVER_REP || marker == DISCOVER_REP + EXIT)
    ensures OnRecords(h, Parse(Bracket(capacity, marker))) == h
  {
    hide Parse, Packed;
    var rs := [Record(MARKER, [marker])];
    assert rs[1..] == [] && rs[..0] == [];
    assert BytesAll(rs) == Bytes(rs[0]) + BytesAll([]);
    RecordsArrive(rs, capacity);
    assert OnRecords(h, []) == h;
    assert OnRecord(h, rs[0]) == h;
  }

  /** The host's table after a whole reply, whatever it held before. */
  lemma ReplyUpdates(h: Handler, s: SessionInfo, capacity: nat)
    requires IsSession(s) && Fits(s, capacity)
    ensures OnMessages(h, Reply(s, capacity)).objects == Updated(h.objects, Nodes(s), |Nodes(s)|)
  {
    hide IsSession, Parse, Nodes, Bracket, OnRecords;
    var first, last := Bracket(capacity, DISCOVER_REP), Bracket(capacity, DISCOVER_REP + EXIT);
    var ms := Messages(s, capacity, |Nodes(s)|);
    BracketIgnored(h, capacity, DISCOVER_REP);
    OneMessage(h, first);
    MessagesRebuild(h, s, capacity, |Nodes(s)|);
    var g := OnMessages(h, ms);
    BracketIgnored(g, capacity, DISCOVER_REP + EXIT);
    OneMessage(g, last);
    OnMessagesSplit(h, [first], ms);
    OnMessagesSplit(h, [first] + ms, [last]);
  }

  lemma OneMessage(h: Handler, m: seq<u8>)
    ensures OnMessages(h, [m]) == OnRecords(h, Parse(m))
  {
    assert [m][..0] == [];
    assert OnMessages(h, []) == h;
  }

  // ---------- Tables left over from an earlier reply ----------

  /** Nodes overwrite parent, marker and fields of the objects they number; all else in the table stays. */
  lemma {:induction false} UpdatedMeaning(t: map<u8, Object>, ns: seq<Node>, k: nat, i: u8)
    requires k <= |ns| && k <= 0x100
    ensures var u := Updated(t, ns, k);
            if i < k then i in u && u[i] == ObjectOf(ns[i], i).(fields := Known(t, i) + ObjectOf(ns[i], i).fields)
            else (i in u <==> i in t) && (i in t ==> u[i] == t[i])
  {
    if k > 0 {
      hide FieldsOf;
      UpdatedMeaning(t, ns, k - 1, i);
    }
  }

  /** Nothing in the table is foreign to the tree: no other identifier, and no field its node does not have. */
  ghost predicate NothingForeign(t: map<u8, Object>, ns: seq<Node>)
    requires |ns| <= 0x100
  {
    forall i | i in t :: i < |ns| && t[i].fields.Keys <= ObjectOf(ns[i], i).fields.Keys
  }

  lemma UpdatedIsTableIff(t: map<u8, Object>, ns: seq<Node>)
    requires |ns| <= 0x100
    ensures Updated(t, ns, |ns|) == Table(ns, |ns|) <==> NothingForeign(t, ns)
  {
    hide ObjectOf, Updated;
    var u, table := Updated(t, ns, |ns|), Table(ns, |ns|);
    forall i: u8
      ensures (i in u <==> i in table) && (i in u ==> u[i] == table[i])
          <==> (i in t ==> i < |ns| && t[i].fields.Keys <= ObjectOf(ns[i], i).fields.Keys)
    {
      UpdatedMeaning(t, ns, |ns|, i);
      if i < |ns| { MergeIsSameIff(Known(t, i), ObjectOf(ns[i], i).fields); }
    }
    SameIff(u, table);
  }

  lemma SameIff<K(!new), V>(a: map<K, V>, b: map<K, V>)
    ensures a == b <==> forall i :: (i in a <==> i in b) && (i in a ==> a[i] == b[i])
  {
    if forall i :: (i in a <==> i in b) && (i in a ==> a[i] == b[i]) { assert a.Keys == b.Keys; }
  }

  lemma MergeIsSameIff<K, V>(a: map<K, V>, b: map<K, V>)
    ensures a + b == b <==> a.Keys <= b.Keys
  {
    if a + b == b { assert (a + b).Keys == a.Keys + b.Keys; }
    if a.Keys <= b.Keys { assert a + b == b; }
  }

  /** The host's table after a reply is exactly the tree if and only if nothing foreign to the tree was in it before. */
  lemma ReplyRebuilds(h: Handler, s: SessionInfo, capacity: nat)
    requires IsSession(s) && Fits(s, capacity) && |Nodes(s)| <= 0x100
    ensures OnMessages(h, Reply(s, capacity)).objects == Table(Nodes(s), |Nodes(s)|)
       <==> NothingForeign(h.objects, Nodes(s))
  {
    hide OnMessages, Reply, Updated, Table, NothingForeign, IsSession, Fits;
    ReplyUpdates(h, s, capacity);
    UpdatedIsTableIff(h.objects, Nodes(s));
  }

  // ---------- What the host can look up afterwards ----------

  predicate Shows(t: map<u8, Object>, id: nat, field: u8, value: seq<u8>) {
    id < 0x100 && id in t && field in t[id].fields && t[id].fields[field] == value
  }

  /** What the table holds for node `k` and its field `j`. */
  lemma NodeShown(t: map<u8, Object>, ns: seq<Node>, k: nat, j: nat)
    requires k < |ns| <= 0x100 && IsNode(ns[k]) && j < |ns[k].fields| && ns[k].parent < 0x100
    ensures var u := Updated(t, ns, |ns|);
            && k in u && u[k].marker == ns[k].marker && u[k].pid == ns[k].parent
            && Shows(u, k, 0, [k]) && Shows(u, k, 1, [ns[k].parent])
            && Shows(u, k, ns[k].fields[j].id, ns[k].fields[j].value)
  {
    hide Updated, FieldsOf, IsNode;
    UpdatedMeaning(t, ns, |ns|, k);
    FieldOfNode(ns[k], k, j);
  }

  lemma FieldOfNode(n: Node, k: nat, j: nat)
    requires IsNode(n) && j < |n.fields|
    ensures var f := FieldsOf(n, k, |n.fields|);
            && ID in f && f[ID] == [k % 0x100] && PARENT_ID in f && f[PARENT_ID] == [n.parent % 0x100]
            && n.fields[j].id in f && f[n.fields[j].id] == n.fields[j].value
  {
    FieldsMeaning(n, k, |n.fields|);
    hide IsNode, FieldsOf;
  }

  /** The channel's node in the preorder. */
  lemma ChannelInPreorder(s: SessionInfo, i: nat, x: nat)
    requires IsSession(s) && i < |s.streams| && x < |s.streams[i].channels|
    ensures var id := StreamAt(s.streams, i) + 1 + x;
            && id < |Nodes(s)| && IsNode(Nodes(s)[id])
            && Nodes(s)[id] == ChannelNode(s.streams[i].channels[x], StreamAt(s.streams, i))
  {
    NodesAreNodes(s);
    NodesAt(s, i);
    hide IsNode, Nodes, StreamAt, ChannelNode, StreamNode;
  }

  lemma ChannelNodeShown(t: map<u8, Object>, ns: seq<Node>, id: nat, c: ChannelInfo, parent: nat)
    requires id < |ns| <= 0x100 && IsNode(ns[id]) && ns[id] == ChannelNode(c, parent) && parent < 0x100
    ensures var u := Updated(t, ns, |ns|);
            && id in u && u[id].marker == 4 && u[id].pid == parent && Shows(u, id, 0, [id]) && Shows(u, id, 1, [parent])
            && Shows(u, id, 2, c.meta[..|c.meta| % 0x100]) && Shows(u, id, 7, c.scale) && Shows(u, id, 8, c.offset)
  {
    hide Updated, IsNode;
    NodeShown(t, ns, id, 0);
    NodeShown(t, ns, id, 1);
    NodeShown(t, ns, id, 2);
  }

  /** After a reply the session's object has its text and its number of streams. */
  lemma SessionShown(h: Handler, s: SessionInfo, capacity: nat)
    requires IsSession(s) && Fits(s, capacity) && |Nodes(s)| <= 0x100
    ensures var u := OnMessages(h, Reply(s, capacity)).objects;
            && 0 in u && u[0].marker == 2 && u[0].pid == 0 && Shows(u, 0, 0, [0]) && Shows(u, 0, 1, [0])
            && Shows(u, 0, 2, s.meta[..|s.meta| % 0x100]) && Shows(u, 0, 3, [|s.streams| % 0x100])
  {
    ReplyUpdates(h, s, capacity);
    NodesAreNodes(s);
    hide Updated, OnMessages, Reply, Fits, Streams;
    NodeShown(h.objects, Nodes(s), 0, 0);
    NodeShown(h.objects, Nodes(s), 0, 1);
  }

  /** The object at a stream's position has the text, the number of channels, sample time and ticks of that stream. */
  lemma StreamShown(h: Handler, s: SessionInfo, capacity: nat, i: nat)
    requires IsSession(s) && Fits(s, capacity) && |Nodes(s)| <= 0x100 && i < |s.streams|
    ensures var u, k, stream := OnMessages(h, Reply(s, capacity)).objects, StreamAt(s.streams, i), s.streams[i];
            && k in u && u[k].marker == 3 && u[k].pid == 0 && Shows(u, k, 0, [k]) && Shows(u, k, 1, [0])
            && Shows(u, k, 2, stream.meta[..|stream.meta| % 0x100]) && Shows(u, k, 4, [|stream.channels| % 0x100])
            && Shows(u, k, 5, stream.sampleTime) && Shows(u, k, 6, stream.ticks)
  {
    ReplyUpdates(h, s, capacity);
    NodesAreNodes(s);
    NodesAt(s, i);
    hide Updated, OnMessages, Reply, Fits, Nodes, StreamAt, IsNode;
    var k := StreamAt(s.streams, i);
    NodeShown(h.objects, Nodes(s), k, 0);
    NodeShown(h.objects, Nodes(s), k, 1);
    NodeShown(h.objects, Nodes(s), k, 2);
    NodeShown(h.objects, Nodes(s), k, 3);
  }

  /** The object at a channel's position has the text, scale and offset of that channel, and its stream as parent. */
  lemma ChannelShown(h: Handler, s: SessionInfo, capacity: nat, i: nat, x: nat)
    requires IsSession(s) && Fits(s, capacity) && |Nodes(s)| <= 0x100
    requires i < |s.streams| && x < |s.streams[i].channels|
    ensures var u, k := OnMessages(h, Reply(s, capacity)).objects, StreamAt(s.streams, i);
            var id, channel := k + 1 + x, s.streams[i].channels[x];
            && id in u && u[id].marker == 4 && u[id].pid == k && Shows(u, id, 0, [id]) && Shows(u, id, 1, [k])
            && Shows(u, id, 2, channel.meta[..|channel.meta| % 0x100])
            && Shows(u, id, 7, channel.scale) && Shows(u, id, 8, channel.offset)
  {
    hide Updated, OnMessages, Reply, Fits, Nodes, StreamAt, IsNode, ChannelNode, IsSession, Shows;
    ReplyUpdates(h, s, capacity);
    ChannelInPreorder(s, i, x);
    ChannelNodeShown(h.objects, Nodes(s), StreamAt(s.streams, i) + 1 + x, s.streams[i].channels[x],
                     StreamAt(s.streams, i));
  }

  /** Fields in front of a section's identifier, and fields outside any section, change nothing in the table. */
  lemma {:induction false} StrayFieldsIgnored(h: Handler, marker: u8, fields: seq<Record>)
    requires marker % 0x80 != 1 && forall i :: 0 <= i < |fields| ==> fields[i].id != 0 && fields[i].id != 0xFF
    ensures var g := OnRecords(h, [Record(0xFF, [marker])] + fields);
            g.objects == h.objects && !g.hasId
  {
    hide OnRecord;
    var first := [Record(0xFF, [marker])];
    if fields == [] {
      assert first[..0] == [] && first + [] == first;
      assert OnRecords(h, first) == OnRecord(h, first[0]);
      MarkerClears(h, marker);
    } else {
      var n := |fields| - 1;
      StrayFieldsIgnored(h, marker, fields[..n]);
      assert first + fields == first + fields[..n] + [fields[n]];
      OnRecordsAppend(h, first + fields[..n], fields[n]);
      StrayField(OnRecords(h, first + fields[..n]), fields[n]);
    }
  }

  lemma MarkerClears(h: Handler, marker: u8)
    requires marker % 0x80 != 1
    ensures OnRecord(h, Record(0xFF, [marker])).objects == h.objects && !OnRecord(h, Record(0xFF, [marker])).hasId
  {
  }

  lemma StrayField(h: Handler, r: Record)
    requires !h.hasId && r.id != 0 && r.id != 0xFF
    ensures OnRecord(h, r).objects == h.objects && !OnRecord(h, r).hasId
  {
  }

  /** A node's message: marker, identifier and parent, the node's fields, and the marker with its highest bit set. */
  lemma MessageBytes(s: SessionInfo, capacity: nat, k: nat)
    requires IsSession(s) && Fits(s, capacity) && k < |Nodes(s)|
    ensures IsNode(Nodes(s)[k])
    ensures var n := Nodes(s)[k];
            && k + 1 < |Reply(s, capacity)|
            && Reply(s, capacity)[k + 1]
            == [0xFF, 1, n.marker, 0, 1, k % 0x100, 1, 1, n.parent % 0x100] + BytesAll(n.fields)
               + [0xFF, 1, n.marker + 0x80]
  {
    NodesAreNodes(s);
    hide IsNode, Packed, Nodes, BytesAll, IsSession, Fits;
    var n := Nodes(s)[k];
    NodeFits(s, capacity, k);
    NodeBytes(n, k);
    assert Messages(s, capacity, |Nodes(s)|)[k] == Packed(capacity, NodeRecords(n, k));
  }

  lemma NodeFits(s: SessionInfo, capacity: nat, k: nat)
    requires IsSession(s) && Fits(s, capacity) && k < |Nodes(s)|
    ensures IsNode(Nodes(s)[k]) && AllWritable(NodeRecords(Nodes(s)[k], k))
    ensures Packed(capacity, NodeRecords(Nodes(s)[k], k)) == BytesAll(NodeRecords(Nodes(s)[k], k))
  {
    NodesAreNodes(s);
    hide IsNode, Packed, Nodes, BytesAll, NodeRecords;
    NodeIsWritable(Nodes(s)[k], k);
    PackedFits(capacity, NodeRecords(Nodes(s)[k], k));
  }

  lemma NodeBytes(n: Node, k: nat)
    requires IsNode(n) && AllWritable(NodeRecords(n, k))
    ensures n.marker < 0x80
    ensures BytesAll(NodeRecords(n, k))
         == [0xFF, 1, n.marker, 0, 1, k % 0x100, 1, 1, n.parent % 0x100] + BytesAll(n.fields)
            + [0xFF, 1, n.marker + 0x80]
  {
    assert n.marker < 0x80;
    hide IsNode, BytesAll;
    var last := Record(MARKER, [(n.marker + EXIT) % 0x100]);
    BytesAppend(n.fields, last);
    BytesOfFour([n.marker], [k % 0x100], [n.parent % 0x100], n.fields + [last]);
    assert NodeRecords(n, k) == Opening(n, k) + (n.fields + [last]);
  }

  lemma BytesOfFour(marker: seq<u8>, id: seq<u8>, parent: seq<u8>, rest: seq<Record>)
    requires |marker| == |id| == |parent| == 1 && AllWritable(rest)
    ensures var rs := [Record(0xFF, marker), Record(0, id), Record(1, parent)] + rest;
            AllWritable(rs) && BytesAll(rs) == [0xFF, 1] + marker + [0, 1] + id + [1, 1] + parent + BytesAll(rest)
  {
    hide BytesAll;
    var r0, r1, r2 := Record(0xFF, marker), Record(0, id), Record(1, parent);
    BytesCons(r2, rest);
    BytesCons(r1, [r2] + rest);
    BytesCons(r0, [r1] + ([r2] + rest));
    assert [r0, r1, r2] + rest == [r0] + ([r1] + ([r2] + rest));
  }
}
