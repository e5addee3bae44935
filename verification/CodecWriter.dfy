/** The encoder `daq::codec::Writer`: channel predictors, a byte ring and a side ring of marks. */
module CodecWriter {
  import opened Words
  import opened RingFast
  import opened ResidualCode
  import opened CodecQueue

  class Writer {
    const channels: array<Channel>
    const stream: Ring<u8>
    const marks: Ring<Mark>
    const syncPeriod: u8
    const reserve: u8
    /** The counter the writer is given a reference to; its owner advances it. */
    var sampleCounter: u32
    var samplesTillSync: u8
    var backpressure: bool
    ghost var items: seq<Item>

    /** The byte ring and the mark ring together lay out `items`. */
    ghost predicate Valid()
      reads this, channels, stream, stream.buffer, marks, marks.buffer
    {
      && Shape()
      && WellFormed(items)
      && stream.contents == Flatten(items)
      && marks.contents == Marks(items, stream.tail, stream.capacity)
    }

    /** Rings and channels in order, whatever is queued. */
    ghost predicate Shape()
      reads this, channels, stream, stream.buffer, marks, marks.buffer
    {
      && stream.Valid() && marks.Valid()
      && stream as object != marks
      && stream.buffer as object != marks.buffer
      && stream.buffer as object != channels && marks.buffer as object != channels
      && 1 <= channels.Length <= 15
      && reserve == CONTROL_RESERVE * channels.Length
    }

    function Cfg(): Config {
      Config(stream.capacity, marks.capacity, syncPeriod)
    }

    ghost function State(): WriterState
      reads this, channels
    {
      WriterState(channels[..], items, samplesTillSync, backpressure)
    }

    /** Channel counts from 16 up would make the 8-bit reserve wrap. */
    constructor (streamBuffer: array<u8>, markBuffer: array<Mark>, channels: array<Channel>, syncPeriod: u8)
      requires 0 < streamBuffer.Length <= 0x8000 && BitAnd(streamBuffer.Length, streamBuffer.Length - 1) == 0
      requires 0 < markBuffer.Length <= 0x8000 && BitAnd(markBuffer.Length, markBuffer.Length - 1) == 0
      requires 1 <= channels.Length <= 15
      requires streamBuffer as object != markBuffer
      requires streamBuffer as object != channels && markBuffer as object != channels
      ensures Valid() && fresh(stream) && fresh(marks)
      ensures stream.buffer == streamBuffer && marks.buffer == markBuffer && this.channels == channels
      ensures Cfg() == Config(streamBuffer.Length, markBuffer.Length, syncPeriod)
      ensures State() == WriterState(channels[..], [], 0, false) && sampleCounter == 0
    {
      stream := new Ring(streamBuffer);
      marks := new Ring(markBuffer);
      this.channels := channels;
      this.syncPeriod := syncPeriod;
      reserve := CONTROL_RESERVE * channels.Length;
      sampleCounter := 0;
      samplesTillSync := 0;
      backpressure := false;
      items := [];
    }

    /** Empties the byte ring but not the mark ring: marks left behind then point at nothing. */
    method Reset()
      requires Valid()
      modifies this, stream
      ensures Shape() && items == []
      ensures Valid() <==> old(Records(items)) == 0
      ensures samplesTillSync == 0 && !backpressure && sampleCounter == 0
    {
      MarksCount(items, stream.tail, stream.capacity);
      stream.Clear();
      samplesTillSync := 0;
      sampleCounter := 0;
      backpressure := false;
      items := [];
    }

    method PredictChannel(i: nat, sample: i16) returns (dod: i16)
      requires i < channels.Length
      modifies channels
      ensures channels[i] == Predict(old(channels[i]), sample).0 && dod == Predict(old(channels[i]), sample).1
      ensures forall k | 0 <= k < channels.Length && k != i :: channels[k] == old(channels[k])
    {
      var delta := ToI16(sample - channels[i].sample);
      dod := ToI16(delta - channels[i].delta);
      channels[i] := Channel(sample, delta);
    }

    method PushResidual(dod: i16)
      requires Shape()
      requires |stream.contents| + |Encode(dod)| < stream.capacity
      modifies stream, stream.buffer
      ensures stream.Valid() && stream.tail == old(stream.tail)
      ensures stream.contents == old(stream.contents) + Encode(dod)
    {
      hide View, IsPow2;
      var sign, mag := Sign(dod), Magnitude(dod);
      if mag < VIRTUAL_BITS_START / 2 {
        stream.PushFast(2 * mag - sign);
      } else {
        var zz := ToU16(2 * mag - sign);
        if Hi(zz) < 8 {
          stream.PushFast(VIRTUAL_BITS_START + Hi(zz));
          stream.PushFast(Lo(zz));
        } else {
          stream.PushFast(LARGE16);
          stream.PushFast(Hi(zz));
          stream.PushFast(Lo(zz));
        }
      }
    }

    method PushWord(w: i16)
      requires Shape()
      requires |stream.contents| + 2 < stream.capacity
      modifies stream, stream.buffer
      ensures stream.Valid() && stream.tail == old(stream.tail)
      ensures stream.contents == old(stream.contents) + WordBytes(w)
    {
      stream.PushFast(Hi(w));
      stream.PushFast(Lo(w));
    }

    method PushCounter()
      requires Shape() && |stream.contents| + 4 < stream.capacity
      modifies stream, stream.buffer
      ensures stream.Valid() && stream.tail == old(stream.tail)
      ensures stream.contents == old(stream.contents) + CounterBytes(sampleCounter)
    {
      hide View, IsPow2;
      stream.PushFast(sampleCounter / 0x100_0000);
      stream.PushFast(sampleCounter / 0x1_0000 % 0x100);
      stream.PushFast(sampleCounter / 0x100 % 0x100);
      stream.PushFast(sampleCounter % 0x100);
    }

    method PushChannels()
      requires Shape() && |stream.contents| + 4 * channels.Length < stream.capacity
      modifies stream, stream.buffer
      ensures stream.Valid() && stream.tail == old(stream.tail)
      ensures stream.contents == old(stream.contents) + ChannelBytes(channels[..])
    {
      hide View, IsPow2;
      for i := 0 to channels.Length
        invariant Shape() && stream.tail == old(stream.tail)
        invariant stream.contents == old(stream.contents) + ChannelBytes(channels[..i])
      {
        ChannelBytesSnoc(channels[..i], channels[i]);
        assert channels[..i + 1] == channels[..i] + [channels[i]];
        PushWord(channels[i].sample);
        PushWord(channels[i].delta);
      }
      assert channels[..channels.Length] == channels[..];
    }

    method PushPayload()
      requires Shape() && |stream.contents| + 4 + 4 * channels.Length < stream.capacity
      modifies stream, stream.buffer
      ensures stream.Valid() && stream.tail == old(stream.tail)
      ensures stream.contents == old(stream.contents) + CounterBytes(sampleCounter) + ChannelBytes(channels[..])
    {
      hide View, IsPow2, ChannelBytes, Ring.Valid;
      PushCounter();
      PushChannels();
    }

    static lemma ResyncParts(before: seq<u8>, counter: u32, channels: seq<Channel>)
      ensures |CounterBytes(counter)| == 4
      ensures before + [RESYNCDOD] + CounterBytes(counter) + ChannelBytes(channels)
           == before + ResyncBytes(counter, channels)
    {
      hide ChannelBytes;
    }

    method InternalResync()
      requires Valid()
      requires 5 + 4 * channels.Length <= Room(Cfg(), items)
      modifies this, stream, stream.buffer, marks, marks.buffer
      ensures Valid() && sampleCounter == old(sampleCounter)
      ensures State() == old(State()).(tillSync := syncPeriod,
                         items := PutRecord(Cfg(), old(items), ResyncBytes(sampleCounter, channels[..])))
    {
      hide Flatten, Marks, Records, WellFormed, View, ChannelBytes, CounterBytes, ResyncBytes, IsPow2, PutRecord;
      ghost var before := stream.contents;
      ResyncParts(before, sampleCounter, channels[..]);
      var idx := stream.head;
      stream.PushFast(RESYNCDOD);
      var _ := marks.Push(Mark(idx, 4 + 4 * channels.Length + 1));
      PushPayload();
      samplesTillSync := syncPeriod;
      ghost var record := ResyncBytes(sampleCounter, channels[..]);
      assert stream.contents == before + record;
      PutLayout(Cfg(), items, record, stream.tail);
      MarksCount(items, stream.tail, stream.capacity);
      items := PutRecord(Cfg(), items, record);
    }

    method EncodeChannel(i: nat, sample: i16, write: bool) returns (dod: i16)
      requires Shape() && i < channels.Length && (write ==> |stream.contents| + 3 < stream.capacity)
      modifies channels, stream, stream.buffer
      ensures stream.Valid() && stream.tail == old(stream.tail)
      ensures channels[i] == Predict(old(channels[i]), sample).0 && dod == Predict(old(channels[i]), sample).1
      ensures forall k | 0 <= k < channels.Length && k != i :: channels[k] == old(channels[k])
      ensures stream.contents == old(stream.contents) + if write then Encode(dod) else []
    {
      hide View, Encode, IsPow2, Predict;
      dod := PredictChannel(i, sample);
      if write { PushResidual(dod); }
    }

    /** Runs every predictor and, if `write`, queues the codes of the residuals. */
    method EncodeVector(samples: seq<i16>, write: bool)
      requires Shape() && |samples| == channels.Length
      requires write ==> |stream.contents| + 3 * channels.Length < stream.capacity
      modifies channels, stream, stream.buffer
      ensures stream.Valid() && stream.tail == old(stream.tail)
      ensures channels[..] == Predicted(old(channels[..]), samples)
      ensures stream.contents
           == old(stream.contents) + if write then EncodeAll(Residuals(old(channels[..]), samples)) else []
    {
      hide View, EncodeAll, Encode, IsPow2, Predict;
      ghost var before, dods := channels[..], Residuals(channels[..], samples);
      for i := 0 to channels.Length
        invariant Shape() && stream.tail == old(stream.tail)
        invariant forall k | 0 <= k < i :: channels[k] == Predicted(before, samples)[k]
        invariant forall k | i <= k < channels.Length :: channels[k] == before[k]
        invariant stream.contents == old(stream.contents) + if write then EncodeAll(dods[..i]) else []
      {
        EncodeAllShort(dods[..i]);
        var dod := EncodeChannel(i, samples[i], write);
        assert dods[..i + 1] == dods[..i] + [dod];
        EncodeSnoc(dods[..i], dod);
      }
      assert dods[..|dods|] == dods;
    }

    method PushSample(samples: seq<i16>) returns (success: bool)
      requires Valid() && |samples| == channels.Length
      modifies this, channels, stream, stream.buffer, marks, marks.buffer
      ensures Valid() && sampleCounter == old(sampleCounter)
      ensures State() == CodecQueue.PushSample(Cfg(), old(State()), samples, sampleCounter)
      ensures success <==>
                !old(backpressure) && stream.capacity - 1 - |old(stream.contents)| > 16 * channels.Length
    {
      hide Flatten, Marks, Records, WellFormed, View, EncodeAll, Encode, IsPow2;
      var write, sync := true, false;
      success := true;
      if backpressure {
        write, success := false, false;
      }
      var free := stream.Free();
      if success && free <= reserve {
        backpressure := true;
        samplesTillSync := 0;
        success, write := false, false;
      }
      if success && samplesTillSync == 0 {
        write, sync := false, true;
      }
      ghost var codes := EncodeAll(Residuals(channels[..], samples));
      EncodeVector(samples, write);
      if sync {
        InternalResync();
      }
      if write {
        samplesTillSync := samplesTillSync - 1;
        EnqueueCodes(items, codes, stream.tail, stream.capacity);
        items := items + Codes(codes);
      }
    }

    method Flush() returns (ok: bool)
      requires Valid()
      modifies this, stream, stream.buffer, marks, marks.buffer
      ensures Valid() && sampleCounter == old(sampleCounter)
      ensures (State(), ok) == CodecQueue.Flush(Cfg(), old(State()))
      ensures ok <==> stream.capacity - 1 - |old(stream.contents)| > 16
    {
      hide Flatten, Marks, Records, WellFormed, View;
      if stream.Free() <= CONTROL_RESERVE {
        return false;
      }
      var idx := stream.head;
      stream.PushFast(FLUSH);
      var marked := marks.Push(Mark(idx, 1));
      samplesTillSync := 0;
      PutLayout(Cfg(), items, [FLUSH], stream.tail);
      MarksCount(items, stream.tail, stream.capacity);
      items := PutRecord(Cfg(), items, [FLUSH]);
      ok := true;
    }

    /** What comes next: a whole record, or the sample bytes in front of the next record. */
    method NextPiece() returns (count: nat, kind: Kind)
      requires Valid()
      ensures items != [] && items[0].Record? ==> kind == Control && count == |items[0].bytes|
      ensures items == [] || items[0].Code? ==> kind == Sample && count == Lead(items)
      ensures count <= |stream.contents|
    {
      hide Flatten, Marks, View;
      FrontMark(items, stream.tail, stream.capacity);
      if items != [] && items[0].Record? { TakeRecord(items, stream.tail, stream.capacity); }
      MarksCount(items, stream.tail, stream.capacity);
      var hasMark, mark := marks.Peek();
      if hasMark {
        var _, distance := stream.DistanceFromTail(mark.idx);
        if distance > 0 {
          return distance, Sample;
        } else {
          return mark.size, Control;
        }
      }
      return stream.Size(), Sample;
    }

    static method CopyBytes(src: array<u8>, at: nat, dst: array<u8>, to: nat, n: nat)
      requires src != dst && at + n <= src.Length && to + n <= dst.Length
      modifies dst
      ensures forall i | 0 <= i < dst.Length :: dst[i] == if to <= i < to + n then src[at + i - to] else old(dst[i])
    {
      forall i | 0 <= i < n { dst[to + i] := src[at + i]; }
    }

    /** Moves the oldest `count` bytes out of the byte ring, from at most two stretches of its buffer. */
    method CopyOut(buf: array<u8>, count: nat) returns (copied: nat)
      requires stream.Valid() && count <= |stream.contents| && count <= buf.Length && stream.contents != []
      requires buf != stream.buffer
      modifies stream, buf
      ensures stream.Valid() && copied == count
      ensures buf[..count] == old(stream.contents)[..count] && buf[count..] == old(buf[count..])
      ensures stream.contents == old(stream.contents)[count..]
      ensures stream.tail == Wrap(old(stream.tail) + count, stream.capacity)
    {
      hide View, IsPow2;
      ghost var all := stream.contents;
      var _, r := stream.ReadReserve();
      StretchesAt(all, stream.buffer[..], r);
      copied := if r.count1 < count then r.count1 else count;
      CopyBytes(stream.buffer, r.start, buf, 0, copied);
      if copied < count && r.count2 > 0 {
        var rem := count - copied;
        var n2 := if r.count2 < rem then r.count2 else rem;
        CopyBytes(stream.buffer, 0, buf, copied, n2);
        copied := copied + n2;
      }
      assert forall i | 0 <= i < copied :: buf[i] == all[i];
      stream.ReadCommit(copied);
    }

    static lemma StretchesAt(all: seq<u8>, buffer: seq<u8>, r: Regions)
      requires r.start + r.count1 <= |buffer| && r.count2 <= |buffer|
      requires all == buffer[r.start..r.start + r.count1] + buffer[..r.count2]
      ensures |all| == r.count1 + r.count2
      ensures forall i | 0 <= i < |all| :: all[i] == if i < r.count1 then buffer[r.start + i] else buffer[i - r.count1]
    {
    }

    /** Moves the next piece out of the rings. */
    method HandOut(buf: array<u8>, count: nat, kind: Kind) returns (n: nat)
      requires Valid() && stream.contents != [] && count <= buf.Length
      requires stream.tail < stream.capacity && |stream.contents| < stream.capacity
      requires buf != stream.buffer && buf as object != marks.buffer && buf as object != channels
      requires var (k, bytes, _) := Take(items, buf.Length);
               kind == k && count == |bytes| && (kind == Control ==> count > 0)
      modifies `items, stream, marks, buf
      ensures Valid() && n == count && buf[n..] == old(buf[n..])
      ensures var (_, bytes, rest) := Take(old(items), buf.Length);
              buf[..n] == bytes && items == rest
    {
      hide Flatten, Marks, WellFormed, Lead, Ring.Valid, Take;
      ghost var (_, bytes, rest) := Take(items, buf.Length);
      TakeLayout(items, buf.Length, stream.tail, stream.capacity);
      ghost var marksBefore := marks.contents;
      n := CopyOut(buf, count);
      if kind == Control {
        var _, _ := marks.Pop();
        assert marksBefore[1..] == marks.contents;
      }
      items := rest;
    }

    /** Hands out the next record whole, or sample bytes up to the next record, as far as `buf` has room. */
    method ReadNext(buf: array<u8>) returns (n: nat, kind: Kind)
      requires Valid() && buf.Length < 0x1_0000
      requires buf != stream.buffer && buf as object != marks.buffer && buf as object != channels
      modifies this, stream, marks, buf
      ensures Valid() && sampleCounter == old(sampleCounter)
      ensures n <= buf.Length && buf[n..] == old(buf[n..])
      ensures var (expected, bytes, state) := CodecQueue.ReadNext(old(State()), buf.Length);
              buf[..n] == bytes && State() == state && kind == expected
    {
      hide Flatten, Marks, WellFormed, Lead, Ring.Valid;
      var bytesToRead;
      bytesToRead, kind := NextPiece();
      NonEmptyFlatten(items);
      if kind == Control && (bytesToRead > buf.Length || bytesToRead == 0) {
        return 0, kind;
      }
      if bytesToRead > buf.Length {
        bytesToRead := buf.Length;
      }
      if stream.Size() == 0 {
        return 0, kind;
      }
      PieceSize(items, buf.Length);
      n := HandOut(buf, bytesToRead, kind);
      NonEmptyFlatten(items);
      if stream.Size() == 0 {
        backpressure := false;
      }
    }
  }

  lemma {:induction false} ChannelBytesSnoc(cs: seq<Channel>, c: Channel)
    ensures ChannelBytes(cs + [c]) == ChannelBytes(cs) + WordBytes(c.sample) + WordBytes(c.delta)
  {
    if cs == [] {
      assert cs + [c] == [c];
    } else {
      assert (cs + [c])[1..] == cs[1..] + [c];
      ChannelBytesSnoc(cs[1..], c);
    }
  }

  lemma {:induction false} EncodeSnoc(ds: seq<i16>, d: i16)
    ensures EncodeAll(ds + [d]) == EncodeAll(ds) + Encode(d)
  {
    if ds == [] {
      assert ds + [d] == [d];
    } else {
      assert (ds + [d])[1..] == ds[1..] + [d];
      EncodeSnoc(ds[1..], d);
    }
  }

  lemma {:induction false} EncodeAllShort(ds: seq<i16>)
    ensures |EncodeAll(ds)| <= 3 * |ds|
  {
    if ds != [] { EncodeAllShort(ds[1..]); }
  }

  /** Layout after queueing control bytes, with or without a mark. */
  lemma PutLayout(cfg: Config, items: seq<Item>, bytes: seq<u8>, tail: nat)
    requires WellFormed(items) && 1 <= |bytes| < 0x100
    requires tail < cfg.capacity && |Flatten(items)| + |bytes| < cfg.capacity
    ensures WellFormed(PutRecord(cfg, items, bytes))
    ensures Flatten(PutRecord(cfg, items, bytes)) == Flatten(items) + bytes
    ensures Marks(PutRecord(cfg, items, bytes), tail, cfg.capacity)
         == if Records(items) + 1 < cfg.markCapacity
            then Marks(items, tail, cfg.capacity) + [Mark(Wrap(tail + |Flatten(items)|, cfg.capacity), |bytes|)]
            else Marks(items, tail, cfg.capacity)
  {
    if Records(items) + 1 < cfg.markCapacity {
      EnqueueRecord(items, bytes, tail, cfg.capacity);
    } else {
      EnqueueCodes(items, bytes, tail, cfg.capacity);
    }
  }

  lemma EnqueueRecord(items: seq<Item>, bytes: seq<u8>, tail: nat, capacity: nat)
    requires WellFormed(items) && 1 <= |bytes| < 0x100
    requires tail < capacity && |Flatten(items)| + |bytes| < capacity
    ensures WellFormed(items + [Record(bytes)]) && Flatten(items + [Record(bytes)]) == Flatten(items) + bytes
    ensures Marks(items + [Record(bytes)], tail, capacity)
         == Marks(items, tail, capacity) + [Mark(Wrap(tail + |Flatten(items)|, capacity), |bytes|)]
  {
    RecordLayout(bytes);
    FlattenConcat(items, [Record(bytes)]);
    MarksConcat(items, [Record(bytes)], tail, capacity);
  }

  lemma EnqueueCodes(items: seq<Item>, bytes: seq<u8>, tail: nat, capacity: nat)
    requires WellFormed(items) && tail < capacity && |Flatten(items)| + |bytes| < capacity
    ensures WellFormed(items + Codes(bytes)) && Flatten(items + Codes(bytes)) == Flatten(items) + bytes
    ensures Marks(items + Codes(bytes), tail, capacity) == Marks(items, tail, capacity)
  {
    hide Flatten, Marks, Wrap, WellFormed, Records;
    CodesLayout(bytes);
    CodesWellFormed(bytes);
    WellFormedConcat(items, Codes(bytes));
    FlattenConcat(items, Codes(bytes));
    MarksConcat(items, Codes(bytes), tail, capacity);
    var end := Wrap(tail + |Flatten(items)|, capacity);
    MarksCount(Codes(bytes), end, capacity);
    assert Marks(items, tail, capacity) + [] == Marks(items, tail, capacity);
  }

  lemma CodesWellFormed(bytes: seq<u8>)
    ensures WellFormed(Codes(bytes))
  {
  }

  lemma {:induction false} LeadIsShort(items: seq<Item>)
    requires WellFormed(items)
    ensures Records(items) == 0 ==> Lead(items) == |items| == |Flatten(items)|
    ensures Records(items) > 0 ==> Lead(items) < |items| && Lead(items) < |Flatten(items)|
  {
    if items != [] {
      WellFormedTail(items);
      if items[0].Code? { LeadIsShort(items[1..]); }
    }
  }

  /** Marks, sample bytes and size of a queue from its first item on. */
  lemma HeadShape(items: seq<Item>, tail: nat, capacity: nat)
    requires Records(items) > 0 && WellFormed(items)
    ensures items != [] && WellFormed(items[1..])
    ensures items[0].Record? ==> Lead(items) == 0 && Marks(items, tail, capacity) != []
                                 && Marks(items, tail, capacity)[0] == Mark(tail, |items[0].bytes|)
    ensures items[0].Code? ==>
              && Lead(items) == 1 + Lead(items[1..]) && |Flatten(items)| == 1 + |Flatten(items[1..])|
              && Records(items) == Records(items[1..])
              && Marks(items, tail, capacity) == Marks(items[1..], Wrap(tail + 1, capacity), capacity)
  {
    HeadRecords(items);
    MarksUnfold(items, tail, capacity);
    hide Flatten, Marks, Records, WellFormed, Wrap, Lead;
    if items[0].Code? {
      assert MarkOf(items[0], tail) == [] && |Bytes(items[0])| == 1;
      assert [] + Marks(items[1..], Wrap(tail + 1, capacity), capacity)
          == Marks(items[1..], Wrap(tail + 1, capacity), capacity);
    }
  }

  lemma HeadRecords(items: seq<Item>)
    requires Records(items) > 0 && WellFormed(items)
    ensures items != [] && WellFormed(items[1..])
    ensures items[0].Record? ==> Lead(items) == 0
    ensures items[0].Code? ==> Lead(items) == 1 + Lead(items[1..]) && Records(items) == Records(items[1..])
  {
    WellFormedTail(items);
    hide WellFormed;
  }

  /** The oldest mark names the first record behind the leading sample bytes. */
  lemma {:induction false} FrontMark(items: seq<Item>, tail: nat, capacity: nat)
    requires tail < capacity && |Flatten(items)| < capacity && WellFormed(items)
    ensures Records(items) == 0 ==> Lead(items) == |items| == |Flatten(items)|
    ensures Records(items) > 0 ==> Lead(items) < |items| && Lead(items) < |Flatten(items)|
    ensures Records(items) > 0 ==>
              var marks := Marks(items, tail, capacity);
              marks != [] && marks[0] == Mark(Wrap(tail + Lead(items), capacity), |items[Lead(items)].bytes|)
  {
    hide Wrap, WellFormed, Flatten, Marks, Records, Lead;
    LeadIsShort(items);
    if Records(items) > 0 {
      HeadShape(items, tail, capacity);
      if items[0].Code? {
        WrapTwice(tail, 1, Lead(items[1..]), capacity);
        FrontMark(items[1..], Wrap(tail + 1, capacity), capacity);
      } else {
        WrapTwice(tail, 0, 0, capacity);
      }
    }
  }

  /** Layout after the first `k` items have been handed out. */
  lemma Dequeue(items: seq<Item>, k: nat, tail: nat, capacity: nat)
    requires k <= |items| && tail < capacity && |Flatten(items)| < capacity && WellFormed(items)
    ensures var size := |Flatten(items[..k])|;
            && Flatten(items) == Flatten(items[..k]) + Flatten(items[k..])
            && WellFormed(items[k..])
            && Marks(items, tail, capacity)
            == Marks(items[..k], tail, capacity) + Marks(items[k..], Wrap(tail + size, capacity), capacity)
  {
    assert items == items[..k] + items[k..];
    WellFormedConcat(items[..k], items[k..]);
    FlattenConcat(items[..k], items[k..]);
    MarksConcat(items[..k], items[k..], tail, capacity);
  }

  lemma TakeRecord(items: seq<Item>, tail: nat, capacity: nat)
    requires tail < capacity && |Flatten(items)| < capacity && WellFormed(items)
    requires items != [] && items[0].Record?
    ensures Flatten(items) == items[0].bytes + Flatten(items[1..]) && WellFormed(items[1..])
    ensures Marks(items, tail, capacity) == [Mark(tail, |items[0].bytes|)]
         + Marks(items[1..], Wrap(tail + |items[0].bytes|, capacity), capacity)
  {
    WellFormedTail(items);
    hide WellFormed, Wrap;
    assert Bytes(items[0]) == items[0].bytes && MarkOf(items[0], tail) == [Mark(tail, |items[0].bytes|)];
    assert Flatten(items) == Bytes(items[0]) + Flatten(items[1..]);
  }

  lemma WellFormedTail(items: seq<Item>)
    requires WellFormed(items) && items != []
    ensures WellFormed(items[1..])
  {
  }

  lemma TakeCodes(items: seq<Item>, n: nat, tail: nat, capacity: nat)
    requires tail < capacity && |Flatten(items)| < capacity && WellFormed(items) && n <= Lead(items)
    ensures |Flatten(items[..n])| == n
    ensures Flatten(items) == Flatten(items[..n]) + Flatten(items[n..]) && WellFormed(items[n..])
    ensures Marks(items, tail, capacity) == Marks(items[n..], Wrap(tail + n, capacity), capacity)
  {
    hide Flatten, Marks, WellFormed, Wrap, Lead, Records;
    Dequeue(items, n, tail, capacity);
    LeadLayout(items, n);
    MarksCount(items[..n], tail, capacity);
    assert Marks(items[..n], tail, capacity) == [];
  }

  /** `Take` removes what it hands out from the byte ring, and the mark of a record from the mark ring. */
  lemma TakeLayout(items: seq<Item>, room: nat, tail: nat, capacity: nat)
    requires tail < capacity && |Flatten(items)| < capacity && WellFormed(items)
    ensures var (kind, bytes, rest) := Take(items, room);
            && |bytes| <= |Flatten(items)|
            && Flatten(items)[..|bytes|] == bytes && Flatten(items)[|bytes|..] == Flatten(rest)
            && WellFormed(rest)
            && (kind == Sample ==> |bytes| == if Lead(items) <= room then Lead(items) else room)
    ensures var (kind, bytes, rest) := Take(items, room);
            var marks := Marks(items, tail, capacity);
            && (kind == Control && bytes != [] ==> marks != [])
            && (if kind == Control && bytes != [] then marks[1..] else marks)
            == Marks(rest, Wrap(tail + |bytes|, capacity), capacity)
  {
    hide Flatten, Marks;
    var (kind, bytes, rest) := Take(items, room);
    if kind == Sample {
      TakeCodes(items, if Lead(items) <= room then Lead(items) else room, tail, capacity);
    } else if bytes != [] {
      TakeRecord(items, tail, capacity);
    }
  }

  /** How many bytes a read hands out. */
  lemma PieceSize(items: seq<Item>, room: nat)
    ensures var (kind, bytes, rest) := Take(items, room);
            && (kind == Control <==> items != [] && items[0].Record?)
            && (kind == Sample ==> |bytes| == if Lead(items) <= room then Lead(items) else room)
            && (kind == Control ==> |bytes| == if |items[0].bytes| <= room then |items[0].bytes| else 0)
            && (bytes == [] ==> kind == Control || rest == items)
  {
    LeadLayout(items, if Lead(items) <= room then Lead(items) else room);
    hide Flatten, Lead;
    assert items[0..] == items;
  }

  lemma {:induction false} NonEmptyFlatten(items: seq<Item>)
    requires WellFormed(items)
    ensures |Flatten(items)| == 0 <==> items == []
  {
  }
}
