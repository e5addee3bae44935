/** The abstract queue between the sample codec's writer and reader, and the operations of the writer on it. */
module CodecQueue {
  import opened Words
  import opened RingFast
  import opened ResidualCode

  const CONTROL_RESERVE := 16
  const RESYNCDOD := 0xFF
  const FLUSH := 0xFE

  datatype Kind = Control | Sample

  /** One byte of sample code, or one whole control record. */
  datatype Item = Code(byte: u8) | Record(bytes: seq<u8>)

  /** Slot of a record's first byte, and its length. */
  datatype Mark = Mark(idx: nat, size: nat)

  predicate WellFormed(items: seq<Item>) {
    forall i | 0 <= i < |items| && items[i].Record? :: 1 <= |items[i].bytes| < 0x100
  }

  // ---------- Layout of the queue in the byte ring and the mark ring ----------

  function Bytes(item: Item): seq<u8> {
    match item
    case Code(b) => [b]
    case Record(bytes) => bytes
  }

  function Flatten(items: seq<Item>): seq<u8> {
    if items == [] then [] else Bytes(items[0]) + Flatten(items[1..])
  }

  function Codes(bytes: seq<u8>): (items: seq<Item>)
    ensures |items| == |bytes| && forall i | 0 <= i < |items| :: items[i] == Code(bytes[i])
  {
    seq(|bytes|, i requires 0 <= i < |bytes| => Code(bytes[i]))
  }

  function Records(items: seq<Item>): nat {
    if items == [] then 0 else Records(items[1..]) + if items[0].Record? then 1 else 0
  }

  /** The marks of the records of `items` when the first byte lies in slot `pos`. */
  function Marks(items: seq<Item>, pos: nat, capacity: nat): seq<Mark>
  {
    if items == [] then []
    else MarkOf(items[0], pos) + Marks(items[1..], Wrap(pos + |Bytes(items[0])|, capacity), capacity)
  }

  function MarkOf(item: Item, pos: nat): seq<Mark> {
    if item.Record? then [Mark(pos, |item.bytes|)] else []
  }

  lemma {:induction false} MarksCount(items: seq<Item>, pos: nat, capacity: nat)
    ensures |Marks(items, pos, capacity)| == Records(items)
  {
    if items != [] { MarksCount(items[1..], Wrap(pos + |Bytes(items[0])|, capacity), capacity); }
  }

  lemma {:induction false} FlattenConcat(a: seq<Item>, b: seq<Item>)
    ensures Flatten(a + b) == Flatten(a) + Flatten(b)
  {
    if a == [] {
      assert a + b == b;
    } else {
      assert (a + b)[1..] == a[1..] + b;
      FlattenConcat(a[1..], b);
    }
  }

  lemma WellFormedConcat(a: seq<Item>, b: seq<Item>)
    ensures WellFormed(a + b) <==> WellFormed(a) && WellFormed(b)
  {
    if WellFormed(a + b) {
      assert forall i | 0 <= i < |a| :: a[i] == (a + b)[i];
      assert forall i | 0 <= i < |b| :: b[i] == (a + b)[|a| + i];
    }
  }

  lemma WrapTwice(pos: nat, a: nat, b: nat, capacity: nat)
    requires pos < capacity && a + b < capacity
    ensures Wrap(pos, capacity) == pos && Wrap(pos + a, capacity) < capacity
    ensures Wrap(Wrap(pos + a, capacity) + b, capacity) == Wrap(pos + a + b, capacity)
  {
  }

  lemma ConcatAssoc<T>(a: seq<T>, b: seq<T>, c: seq<T>)
    ensures a + (b + c) == a + b + c
  {
  }

  lemma MarksUnfold(items: seq<Item>, pos: nat, capacity: nat)
    ensures items == [] ==> Marks(items, pos, capacity) == [] && Flatten(items) == []
    ensures items != [] ==>
              var size, rest := |Bytes(items[0])|, items[1..];
              && |Flatten(items)| == size + |Flatten(rest)|
              && Marks(items, pos, capacity)
              == MarkOf(items[0], pos) + Marks(rest, Wrap(pos + size, capacity), capacity)
  {
  }

  lemma {:induction false} MarksConcat(a: seq<Item>, b: seq<Item>, pos: nat, capacity: nat)
    requires pos < capacity && |Flatten(a)| + |Flatten(b)| < capacity
    ensures Marks(a + b, pos, capacity)
         == Marks(a, pos, capacity) + Marks(b, Wrap(pos + |Flatten(a)|, capacity), capacity)
  {
    hide Wrap, Marks, Flatten, MarkOf, Bytes;
    MarksUnfold(a, pos, capacity);
    if a == [] {
      WrapTwice(pos, 0, 0, capacity);
      assert a + b == b;
    } else {
      var tl, size := a[1..], |Bytes(a[0])|;
      var next, end := Wrap(pos + size, capacity), Wrap(pos + |Flatten(a)|, capacity);
      WrapTwice(pos, size, |Flatten(tl)|, capacity);
      MarksConcat(tl, b, next, capacity);
      assert (a + b)[1..] == tl + b;
      MarksUnfold(a + b, pos, capacity);
      ConcatAssoc(MarkOf(a[0], pos), Marks(tl, next, capacity), Marks(b, end, capacity));
    }
  }

  lemma {:induction false} CodesLayout(bytes: seq<u8>)
    ensures Flatten(Codes(bytes)) == bytes && Records(Codes(bytes)) == 0
  {
    if bytes != [] {
      assert Codes(bytes)[1..] == Codes(bytes[1..]);
      CodesLayout(bytes[1..]);
    }
  }

  lemma RecordLayout(bytes: seq<u8>)
    ensures Flatten([Record(bytes)]) == bytes && Records([Record(bytes)]) == 1
  {
    assert bytes + [] == bytes;
  }

  /** Every record takes at least one byte, so a mark ring as large as the byte ring never fills. */
  lemma {:induction false} RecordsFit(items: seq<Item>)
    requires WellFormed(items)
    ensures Records(items) <= |Flatten(items)|
  {
    if items != [] { RecordsFit(items[1..]); }
  }

  // ---------- Reading ----------

  /** Number of sample bytes in front of the first record. */
  function Lead(items: seq<Item>): (n: nat)
    ensures n <= |items|
    ensures forall i | 0 <= i < n :: items[i].Code?
    ensures n < |items| ==> items[n].Record?
  {
    if items == [] || items[0].Record? then 0 else 1 + Lead(items[1..])
  }

  lemma {:induction false} LeadLayout(items: seq<Item>, n: nat)
    requires n <= Lead(items)
    ensures |Flatten(items[..n])| == n && items[..n] == Codes(Flatten(items[..n])) && Records(items[..n]) == 0
  {
    if n > 0 {
      assert items[..n][1..] == items[1..][..n - 1];
      LeadLayout(items[1..], n - 1);
    }
  }

  /** What one call of `readNext` with `room` bytes hands out, and what stays queued. */
  function Take(items: seq<Item>, room: nat): (Kind, seq<u8>, seq<Item>) {
    if items != [] && items[0].Record? then
      if |items[0].bytes| <= room then (Control, items[0].bytes, items[1..]) else (Control, [], items)
    else
      var n := if Lead(items) <= room then Lead(items) else room;
      (Sample, Flatten(items[..n]), items[n..])
  }

  // ---------- Writing ----------

  datatype Config = Config(capacity: u16, markCapacity: u16, period: u8)

  /** The writer's own state; `items` are the queued records and sample bytes. */
  datatype WriterState = WriterState(channels: seq<Channel>, items: seq<Item>, tillSync: u8, backpressure: bool)

  function Room(cfg: Config, items: seq<Item>): int {
    cfg.capacity - 1 - |Flatten(items)|
  }

  /** Queues control bytes: as a record if the mark ring can take its mark, else they pass for sample bytes. */
  function PutRecord(cfg: Config, items: seq<Item>, bytes: seq<u8>): seq<Item> {
    items + if Records(items) + 1 < cfg.markCapacity then [Record(bytes)] else Codes(bytes)
  }

  function Predicted(channels: seq<Channel>, samples: seq<i16>): (next: seq<Channel>)
    requires |samples| == |channels|
    ensures |next| == |channels|
  {
    seq(|channels|, i requires 0 <= i < |channels| => Predict(channels[i], samples[i]).0)
  }

  function Residuals(channels: seq<Channel>, samples: seq<i16>): (ds: seq<i16>)
    requires |samples| == |channels|
    ensures |ds| == |channels|
  {
    seq(|channels|, i requires 0 <= i < |channels| => Predict(channels[i], samples[i]).1)
  }

  function WordBytes(w: int): (bytes: seq<u8>) { [Hi(w), Lo(w)] }

  function ChannelBytes(channels: seq<Channel>): (bytes: seq<u8>)
    ensures |bytes| == 4 * |channels|
  {
    if channels == [] then []
    else WordBytes(channels[0].sample) + WordBytes(channels[0].delta) + ChannelBytes(channels[1..])
  }

  function CounterBytes(counter: u32): seq<u8> {
    [counter / 0x100_0000, counter / 0x1_0000 % 0x100, counter / 0x100 % 0x100, counter % 0x100]
  }

  /** A resync record: code, sample counter, then sample and delta of every channel, all big-endian. */
  function ResyncBytes(counter: u32, channels: seq<Channel>): (bytes: seq<u8>)
    ensures |bytes| == 5 + 4 * |channels|
  {
    [RESYNCDOD] + CounterBytes(counter) + ChannelBytes(channels)
  }

  /** How `pushSample` treats a vector. */
  datatype Verdict = Dropped | Synced | Written

  function Judge(cfg: Config, w: WriterState): Verdict {
    if w.backpressure || Room(cfg, w.items) <= CONTROL_RESERVE * |w.channels| then Dropped
    else if w.tillSync == 0 then Synced
    else Written
  }

  function PushSample(cfg: Config, w: WriterState, samples: seq<i16>, counter: u32): WriterState
    requires |samples| == |w.channels|
  {
    var next := Predicted(w.channels, samples);
    match Judge(cfg, w)
    case Dropped => WriterState(next, w.items, if w.backpressure then w.tillSync else 0, true)
    case Synced => WriterState(next, PutRecord(cfg, w.items, ResyncBytes(counter, next)), cfg.period, false)
    case Written =>
      WriterState(next, w.items + Codes(EncodeAll(Residuals(w.channels, samples))), w.tillSync - 1, false)
  }

  function Flush(cfg: Config, w: WriterState): (WriterState, bool) {
    if Room(cfg, w.items) <= CONTROL_RESERVE then (w, false)
    else (w.(items := PutRecord(cfg, w.items, [FLUSH]), tillSync := 0), true)
  }

  function ReadNext(w: WriterState, room: nat): (Kind, seq<u8>, WriterState) {
    var (kind, bytes, rest) := Take(w.items, room);
    if bytes == [] then (kind, [], w)
    else (kind, bytes, w.(items := rest, backpressure := w.backpressure && rest != []))
  }
}
