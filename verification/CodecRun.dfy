/** Runs of the sample codec: any interleaving of pushes, flushes, reads and polls. */
module CodecRun {
  import opened Words
  import opened ResidualCode
  import opened CodecQueue
  import opened CodecDecoder
  import opened CodecFrames
  import opened CodecLink

  datatype Event =
    | Push(samples: Vector, counter: u32)
    | RequestFlush
    | Pump(room: nat)      // readNext into a buffer of this size, then decode
    | Poll                 // getSamples
    | Transfer(room: nat)  // the receive loop: read, decode, and take the block if it is ready

  /** One nonempty result of `readNext`. */
  datatype Piece = Piece(kind: Kind, bytes: seq<u8>)

  /**
   * Writer and reader, with the history of all pushed vectors and their counters, of the accepted ones and their
   * places among the pushed, of frames, of pieces handed over and of blocks taken.
   */
  datatype LinkState = LinkState(w: WriterState, r: ReaderState, frames: seq<Frame>, accepted: seq<Vector>,
                                 pushes: seq<Vector>, counters: seq<u32>, places: seq<nat>,
                                 pieces: seq<Piece>, taken: seq<Delivery>)

  function Fresh(channels: seq<Channel>, readerChannels: seq<Channel>, capacity: nat): LinkState {
    LinkState(WriterState(channels, [], 0, false),
              ReaderState(false, Decoding(AtCode), [], readerChannels, Block(false, 0, [], capacity)),
              [], [], [], [], [], [], [])
  }

  function AfterPush(cfg: Config, s: LinkState, samples: Vector, counter: u32): LinkState
    requires |samples| == |s.w.channels|
  {
    s.(w := PushSample(cfg, s.w, samples, counter),
       frames := s.frames + PushFrames(cfg, s.w, samples, counter),
       pushes := s.pushes + [samples],
       counters := s.counters + [counter],
       accepted := s.accepted + if Judge(cfg, s.w) == Dropped then [] else [samples],
       places := s.places + if Judge(cfg, s.w) == Dropped then [] else [|s.pushes|])
  }

  function AfterFlush(cfg: Config, s: LinkState): LinkState {
    var (w, ok) := Flush(cfg, s.w);
    s.(w := w, frames := s.frames + if ok then [FlushMark] else [])
  }

  function AfterPump(s: LinkState, room: nat): LinkState {
    var (kind, bytes, w) := ReadNext(s.w, room);
    s.(w := w, r := Decode(s.r, bytes, kind).0, pieces := s.pieces + if bytes == [] then [] else [Piece(kind, bytes)])
  }

  function AfterPoll(s: LinkState): LinkState {
    s.(r := s.r.(block := s.r.block.(ready := false)), taken := s.taken + Offer(s.r))
  }

  function Next(cfg: Config, s: LinkState, e: Event): LinkState {
    match e
    case Push(samples, counter) => if |samples| == |s.w.channels| then AfterPush(cfg, s, samples, counter) else s
    case RequestFlush => AfterFlush(cfg, s)
    case Pump(room) => AfterPump(s, room)
    case Poll => AfterPoll(s)
    case Transfer(room) => AfterPoll(AfterPump(s, room))
  }

  function Run(cfg: Config, s: LinkState, events: seq<Event>): LinkState
    decreases |events|
  {
    if events == [] then s else Run(cfg, Next(cfg, s, events[0]), events[1..])
  }

  /** A record finds room for its mark, and no residual is one of those the decoder misreads. */
  predicate Admissible(cfg: Config, s: LinkState, e: Event) {
    match e
    case Push(samples, _) =>
      && |samples| == |s.w.channels|
      && (Judge(cfg, s.w) == Synced ==> Records(s.w.items) + 1 < cfg.markCapacity)
      && (Judge(cfg, s.w) == Written ==> forall d | d in Residuals(s.w.channels, samples) :: !InGap(d))
    case RequestFlush => Room(cfg, s.w.items) > CONTROL_RESERVE ==> Records(s.w.items) + 1 < cfg.markCapacity
    case _ => true
  }

  predicate AdmissibleRun(cfg: Config, s: LinkState, events: seq<Event>)
    decreases |events|
  {
    events == [] || (Admissible(cfg, s, events[0]) && AdmissibleRun(cfg, Next(cfg, s, events[0]), events[1..]))
  }

  // ---------- Invariant ----------

  ghost predicate InStep(cfg: Config, n: nat, s: LinkState, j: nat, p: nat) {
    && At(s.frames, j, p)
    && Sound(s.frames, n, cfg.period)
    && |s.w.channels| == n
    && WriterAt(cfg, s.w, s.frames)
    && s.w.items == Rest(s.frames, j, p) && WellFormed(s.w.items)
    && ReaderAt(s.r, s.frames, j, p, n)
    && s.r.block.capacity >= n * (cfg.period + 1)
    && s.accepted == Vectors(s.frames)
  }

  /** With a consumer that looks after every piece, everything announced so far has been taken. */
  ghost predicate UpToDate(s: LinkState, j: nat)
    requires j <= |s.frames|
  {
    !s.r.block.ready && s.taken == Announced(s.frames[..j])
  }

  predicate Attentive(events: seq<Event>) {
    forall i | 0 <= i < |events| :: !events[i].Pump? && !events[i].Poll?
  }

  lemma FreshInStep(cfg: Config, channels: seq<Channel>, readerChannels: seq<Channel>, capacity: nat)
    requires 1 <= |channels| <= 14 && |readerChannels| == |channels| && capacity >= |channels| * (cfg.period + 1)
    ensures InStep(cfg, |channels|, Fresh(channels, readerChannels, capacity), 0, 0)
    ensures UpToDate(Fresh(channels, readerChannels, capacity), 0)
  {
  }

  lemma ReaderGrows(r: ReaderState, fs: seq<Frame>, f: Frame, j: nat, p: nat, n: nat)
    requires At(fs, j, p) && ReaderAt(r, fs, j, p, n) && FrameItems(f) != []
    ensures At(fs + [f], j, p) && ReaderAt(r, fs + [f], j, p, n) && (fs + [f])[..j] == fs[..j]
  {
    RestGrows(fs, f, j, p);
    assert (fs + [f])[..j] == fs[..j];
    if f.Delta? { assert EncodeAll(f.dods)[..0] == []; }
    hide After, Announced, Flat, EncodeAll, DecodeAll;
  }

  lemma SoundGrows(fs: seq<Frame>, f: Frame, n: nat, period: nat)
    requires Sound(fs, n, period) && Chained(fs + [f], n, period) && Clear(f)
    ensures Sound(fs + [f], n, period) && FrameItems(f) != [] && WellFormed(FrameItems(f))
  {
    SnocShape(fs, f);
    FollowsNonEmpty(fs, f, n, period);
    hide Chained, Follows, FrameItems, WellFormed;
    assert forall k | 0 <= k < |fs + [f]| :: (fs + [f])[k] == if k < |fs| then fs[k] else f;
  }

  lemma FollowsNonEmpty(fs: seq<Frame>, f: Frame, n: nat, period: nat)
    requires 1 <= n <= 14 && Follows(fs, f, n, period)
    ensures FrameItems(f) != [] && WellFormed(FrameItems(f))
  {
  }

  /** Whatever frame the writer appends, the reader's position keeps its meaning. */
  lemma HistoryGrows(cfg: Config, n: nat, s: LinkState, j: nat, p: nat, w: WriterState, f: Frame, accepted: seq<Vector>)
    requires InStep(cfg, n, s, j, p) && Clear(f)
    requires WriterAt(cfg, w, s.frames + [f]) && |w.channels| == n && w.items == s.w.items + FrameItems(f)
    requires accepted == Vectors(s.frames + [f])
    ensures InStep(cfg, n, s.(w := w, frames := s.frames + [f], accepted := accepted), j, p)
    ensures (s.frames + [f])[..j] == s.frames[..j]
  {
    hide After, Announced, Vectors, WellFormed, ReaderAt, Chained, Expand, Rest;
    SoundGrows(s.frames, f, n, cfg.period);
    ReaderGrows(s.r, s.frames, f, j, p, n);
    RestGrows(s.frames, f, j, p);
    WellFormedConcat(s.w.items, FrameItems(f));
  }

  lemma PushStep(cfg: Config, n: nat, s: LinkState, j: nat, p: nat, samples: Vector, counter: u32)
    requires InStep(cfg, n, s, j, p) && Admissible(cfg, s, Push(samples, counter))
    ensures InStep(cfg, n, AfterPush(cfg, s, samples, counter), j, p)
    ensures AfterPush(cfg, s, samples, counter).frames[..j] == s.frames[..j]
  {
    hide InStep, Admissible, PushSample, PushFrames, Judge, WriterAt, Vectors, Expand, FrameItems, Clear, At;
    PushContext(cfg, n, s, j, p, samples, counter);
    WriterPush(cfg, s.w, s.frames, samples, counter);
    PushedFrame(cfg, s, samples, counter);
    var frames := PushFrames(cfg, s.w, samples, counter);
    var s' := AfterPush(cfg, s, samples, counter);
    if frames == [] {
      assert s.frames + [] == s.frames && s.accepted + [] == s.accepted;
      NothingSent(cfg, n, s, s', j, p);
    } else {
      assert frames == [frames[0]];
      ExpandOne(frames[0]);
      HistoryGrows(cfg, n, s, j, p, s'.w, frames[0], s'.accepted);
      SameLink(cfg, n, s.(w := s'.w, frames := s'.frames, accepted := s'.accepted), s', j, p);
    }
  }

  lemma PushContext(cfg: Config, n: nat, s: LinkState, j: nat, p: nat, samples: Vector, counter: u32)
    requires InStep(cfg, n, s, j, p) && Admissible(cfg, s, Push(samples, counter))
    ensures At(s.frames, j, p) && j <= |s.frames| && |samples| == |s.w.channels| == n
    ensures WriterAt(cfg, s.w, s.frames) && s.accepted == Vectors(s.frames)
    ensures Judge(cfg, s.w) == Synced ==> Records(s.w.items) + 1 < cfg.markCapacity
    ensures forall f | f in PushFrames(cfg, s.w, samples, counter) :: Clear(f)
  {
    hide ReaderAt, WriterAt, Rest, Vectors, Room, Records, Sound, Residuals, Predicted;
  }

  /** What a push changes besides the queue. */
  lemma PushedFrame(cfg: Config, s: LinkState, samples: Vector, counter: u32)
    requires |samples| == |s.w.channels|
    ensures var s', frames := AfterPush(cfg, s, samples, counter), PushFrames(cfg, s.w, samples, counter);
            && |frames| <= 1 && (frames == [] <==> Judge(cfg, s.w) == Dropped)
            && s'.r == s.r && |s'.w.channels| == |s.w.channels|
            && (frames == [] ==> s'.w.items == s.w.items)
  {
    hide Residuals, Room, PutRecord, EncodeAll, ResyncBytes;
  }

  lemma NothingSent(cfg: Config, n: nat, s: LinkState, s': LinkState, j: nat, p: nat)
    requires InStep(cfg, n, s, j, p) && WriterAt(cfg, s'.w, s.frames) && s'.r == s.r
    requires s'.w.items == s.w.items && |s'.w.channels| == |s.w.channels|
    requires s'.frames == s.frames && s'.accepted == s.accepted
    ensures InStep(cfg, n, s', j, p)
  {
    hide ReaderAt, WriterAt, Rest, Vectors, Sound, At, WellFormed;
  }

  lemma SameLink(cfg: Config, n: nat, s: LinkState, s': LinkState, j: nat, p: nat)
    requires InStep(cfg, n, s, j, p)
    requires s'.w == s.w && s'.r == s.r && s'.frames == s.frames && s'.accepted == s.accepted
    ensures InStep(cfg, n, s', j, p)
  {
    hide ReaderAt, WriterAt, Rest, Vectors, Sound, At, WellFormed;
  }

  lemma FlushStep(cfg: Config, n: nat, s: LinkState, j: nat, p: nat)
    requires InStep(cfg, n, s, j, p) && Admissible(cfg, s, RequestFlush)
    ensures InStep(cfg, n, AfterFlush(cfg, s), j, p)
    ensures AfterFlush(cfg, s).frames[..j] == s.frames[..j]
  {
    WriterFlush(cfg, s.w, s.frames);
    hide After, Announced, Vectors, WellFormed, ReaderAt, Chained, Expand, Rest, WriterAt, Sound;
    var (w, ok) := Flush(cfg, s.w);
    if ok {
      ExpandOne(FlushMark);
      HistoryGrows(cfg, n, s, j, p, w, FlushMark, s.accepted);
    } else {
      assert s.frames + [] == s.frames;
    }
  }

  lemma ReaderUnready(r: ReaderState, fs: seq<Frame>, j: nat, p: nat, n: nat)
    requires At(fs, j, p) && ReaderAt(r, fs, j, p, n)
    ensures ReaderAt(r.(block := r.block.(ready := false)), fs, j, p, n)
  {
    hide After, Announced, Flat, EncodeAll, DecodeAll;
  }

  lemma WellFormedDrop(items: seq<Item>, n: nat)
    requires WellFormed(items) && n <= |items|
    ensures WellFormed(items[n..]) && (items != [] && items[0].Record? ==> items[0].bytes != [])
  {
  }

  lemma WellFormedSuffix(items: seq<Item>, room: nat)
    requires WellFormed(items)
    ensures WellFormed(Take(items, room).2)
    ensures Take(items, room).1 == [] ==> Take(items, room).2 == items
  {
    hide WellFormed, Flatten, Lead;
    var n := if Lead(items) <= room then Lead(items) else room;
    WellFormedDrop(items, n);
    if items != [] { WellFormedDrop(items, 1); }
    LeadLayout(items, n);
    assert items[0..] == items;
  }

  lemma PumpStep(cfg: Config, n: nat, s: LinkState, j: nat, p: nat, room: nat) returns (j': nat, p': nat)
    requires InStep(cfg, n, s, j, p)
    ensures InStep(cfg, n, AfterPump(s, room), j', p')
    ensures !s.r.block.ready ==> Announced(s.frames[..j']) == Announced(s.frames[..j]) + Offer(AfterPump(s, room).r)
  {
    hide After, Announced, Vectors, WellFormed, ReaderAt, Chained, Expand, Rest, Sound, Take, Decode, WriterAt, Offer;
    j', p' := PieceStep(s.r, s.frames, j, p, room, n, cfg.period);
    WellFormedSuffix(s.w.items, room);
    WriterRead(cfg, s.w, s.frames, room);
    var (kind, bytes, rest) := Take(s.w.items, room);
    if bytes == [] {
      DecodeAny(s.r, kind, ReadNext(s.w, room).0);
    }
  }

  lemma WriterRead(cfg: Config, w: WriterState, fs: seq<Frame>, room: nat)
    requires WriterAt(cfg, w, fs)
    ensures WriterAt(cfg, ReadNext(w, room).2, fs)
  {
    hide After, Chained, Take;
  }

  lemma DecodeAny(r: ReaderState, k1: Kind, k2: Kind)
    ensures Decode(r, [], k1) == Decode(r, [], k2)
  {
  }

  lemma PollStep(cfg: Config, n: nat, s: LinkState, j: nat, p: nat)
    requires InStep(cfg, n, s, j, p)
    ensures InStep(cfg, n, AfterPoll(s), j, p)
  {
    hide After, Announced, Vectors, WellFormed, ReaderAt, Chained, Expand, Rest, Sound;
    ReaderUnready(s.r, s.frames, j, p, n);
  }

  lemma NextStep(cfg: Config, n: nat, s: LinkState, j: nat, p: nat, e: Event) returns (j': nat, p': nat)
    requires InStep(cfg, n, s, j, p) && Admissible(cfg, s, e)
    ensures InStep(cfg, n, Next(cfg, s, e), j', p')
    ensures UpToDate(s, j) && !e.Pump? && !e.Poll? ==> UpToDate(Next(cfg, s, e), j')
  {
    hide InStep, Announced, PushFrames;
    assert j <= |s.frames| && |s.w.channels| == n by { InStepBounds(cfg, n, s, j, p); }
    j', p' := j, p;
    match e
    case Push(samples, counter) => PushStep(cfg, n, s, j, p, samples, counter);
    case RequestFlush => FlushStep(cfg, n, s, j, p);
    case Pump(room) => j', p' := PumpStep(cfg, n, s, j, p, room);
    case Poll => PollStep(cfg, n, s, j, p);
    case Transfer(room) =>
      j', p' := PumpStep(cfg, n, s, j, p, room);
      PollStep(cfg, n, AfterPump(s, room), j', p');
    InStepBounds(cfg, n, Next(cfg, s, e), j', p');
  }

  lemma InStepBounds(cfg: Config, n: nat, s: LinkState, j: nat, p: nat)
    requires InStep(cfg, n, s, j, p)
    ensures j <= |s.frames| && |s.w.channels| == n
  {
  }

  /** The invariant holds after every admissible run. */
  lemma {:induction false} RunInStep(cfg: Config, n: nat, s: LinkState, j: nat, p: nat, events: seq<Event>)
    returns (j': nat, p': nat)
    requires InStep(cfg, n, s, j, p) && AdmissibleRun(cfg, s, events)
    ensures InStep(cfg, n, Run(cfg, s, events), j', p')
    ensures j <= |s.frames| && j' <= |Run(cfg, s, events).frames|
    ensures Attentive(events) && UpToDate(s, j) ==> UpToDate(Run(cfg, s, events), j')
    decreases |events|
  {
    InStepBounds(cfg, n, s, j, p);
    hide InStep, UpToDate, Next, Admissible, Run, AdmissibleRun, Attentive;
    RunUnfold(cfg, s, events);
    if events == [] {
      j', p' := j, p;
    } else {
      var jn, pn := NextStep(cfg, n, s, j, p, events[0]);
      InStepBounds(cfg, n, Next(cfg, s, events[0]), jn, pn);
      j', p' := RunInStep(cfg, n, Next(cfg, s, events[0]), jn, pn, events[1..]);
    }
  }

  lemma RunUnfold(cfg: Config, s: LinkState, events: seq<Event>)
    ensures events == [] ==> Run(cfg, s, events) == s
    ensures events != [] ==>
              && Run(cfg, s, events) == Run(cfg, Next(cfg, s, events[0]), events[1..])
              && (AdmissibleRun(cfg, s, events) ==>
                    Admissible(cfg, s, events[0]) && AdmissibleRun(cfg, Next(cfg, s, events[0]), events[1..]))
              && (Attentive(events) ==> !events[0].Pump? && !events[0].Poll? && Attentive(events[1..]))
  {
    hide Next, Admissible;
  }

  // ---------- Main results ----------

  /** Frames `a` up to `i` are one group, complete: from a resync to the next record that closes it. */
  predicate WholeGroup(fs: seq<Frame>, a: nat, i: nat) {
    && a < i < |fs|
    && fs[a].Resync? && Closing(fs[i])
    && forall m | a < m < i :: !fs[m].Resync?
  }

  /** A block is exactly the consecutive accepted vectors of the group that the last of the frames `fs` closes. */
  ghost predicate HoldsLast(d: Delivery, fs: seq<Frame>) {
    fs != [] && exists a: nat ::
      WholeGroup(fs, a, |fs| - 1) && d == Delivery(fs[a].counter, Flat(Vectors(fs[a..|fs| - 1])))
  }

  /**
   * After any admissible run, with the frames before `j` handed out and the rest still queued: a ready block holds
   * exactly the accepted vectors of the group that the last frame handed out closes.
   */
  lemma EndToEnd(cfg: Config, channels: seq<Channel>, readerChannels: seq<Channel>, capacity: nat, events: seq<Event>)
    returns (j: nat, p: nat)
    requires 1 <= |channels| <= 14 && |readerChannels| == |channels| && capacity >= |channels| * (cfg.period + 1)
    requires AdmissibleRun(cfg, Fresh(channels, readerChannels, capacity), events)
    ensures var s := Run(cfg, Fresh(channels, readerChannels, capacity), events);
            && s.accepted == Vectors(s.frames)
            && At(s.frames, j, p) && s.w.items == Rest(s.frames, j, p)
            && (s.r.block.ready ==> HoldsLast(Delivery(s.r.block.counter, s.r.block.samples), s.frames[..j]))
  {
    var n := |channels|;
    FreshInStep(cfg, channels, readerChannels, capacity);
    j, p := RunInStep(cfg, n, Fresh(channels, readerChannels, capacity), 0, 0, events);
    var s := Run(cfg, Fresh(channels, readerChannels, capacity), events);
    hide After, Announced, Vectors, Chained, Run, AdmissibleRun;
    if s.r.block.ready {
      ReadyHoldsLast(s.r, s.frames, j, p, n, cfg.period);
    }
  }

  lemma ReadyFact(r: ReaderState, fs: seq<Frame>, j: nat, p: nat, n: nat)
    requires At(fs, j, p) && ReaderAt(r, fs, j, p, n) && r.block.ready
    ensures ReadyAt(r, fs, j) && j > 0 && Closing(fs[j - 1])
  {
    hide Flat, EncodeAll, DecodeAll;
  }

  lemma ReadyHoldsLast(r: ReaderState, fs: seq<Frame>, j: nat, p: nat, n: nat, period: nat)
    requires At(fs, j, p) && ReaderAt(r, fs, j, p, n) && Chained(fs, n, period) && r.block.ready
    ensures HoldsLast(Delivery(r.block.counter, r.block.samples), fs[..j])
  {
    hide After, Announced, Vectors, Chained, ReaderAt, Flat;
    ChainedPrefix(fs, j, n, period);
    ReadyFact(r, fs, j, p, n);
    ClosingAnnounces(fs[..j]);
    var a, i := AnnouncedIsGroup(fs[..j], |Announced(fs[..j])| - 1, n, period);
    assert WholeGroup(fs[..j], a, i);
  }

  /** Once everything queued has been received, a consumer that looks after every piece has taken every announcement. */
  lemma Delivered(cfg: Config, channels: seq<Channel>, readerChannels: seq<Channel>, capacity: nat, events: seq<Event>)
    requires 1 <= |channels| <= 14 && |readerChannels| == |channels| && capacity >= |channels| * (cfg.period + 1)
    requires AdmissibleRun(cfg, Fresh(channels, readerChannels, capacity), events) && Attentive(events)
    ensures var s := Run(cfg, Fresh(channels, readerChannels, capacity), events);
            && Chained(s.frames, |channels|, cfg.period) && s.accepted == Vectors(s.frames)
            && (s.w.items == [] ==> s.taken == Announced(s.frames))
  {
    var n := |channels|;
    FreshInStep(cfg, channels, readerChannels, capacity);
    var j, p := RunInStep(cfg, n, Fresh(channels, readerChannels, capacity), 0, 0, events);
    var s := Run(cfg, Fresh(channels, readerChannels, capacity), events);
    hide After, Announced, Vectors, Chained, Run, AdmissibleRun;
    if s.w.items == [] {
      RestEmpty(s.frames, j, p);
      assert s.frames[..j] == s.frames;
    }
  }

  lemma RestEmpty(fs: seq<Frame>, j: nat, p: nat)
    requires At(fs, j, p) && Rest(fs, j, p) == []
    ensures j == |fs|
  {
  }

  /**
   * A run that ends with a flush and has been received delivers exactly the accepted samples if and only if no
   * earlier flush closed a group: the resync that follows such a flush announces the same block a second time.
   */
  lemma StreamIsExactIff(cfg: Config, channels: seq<Channel>, readerChannels: seq<Channel>, capacity: nat,
                         events: seq<Event>)
    requires 1 <= |channels| <= 14 && |readerChannels| == |channels| && capacity >= |channels| * (cfg.period + 1)
    requires AdmissibleRun(cfg, Fresh(channels, readerChannels, capacity), events) && Attentive(events)
    requires var s := Run(cfg, Fresh(channels, readerChannels, capacity), events);
             s.w.items == [] && s.frames != [] && Last(s.frames).FlushMark? && After(s.frames).Group?
    ensures var s := Run(cfg, Fresh(channels, readerChannels, capacity), events);
            Samples(s.taken) == Flat(s.accepted) <==> NoEarlyFlush(Front(s.frames))
  {
    Delivered(cfg, channels, readerChannels, capacity, events);
    FlushedStreamIff(Run(cfg, Fresh(channels, readerChannels, capacity), events).frames, |channels|, cfg.period);
  }

  /** The writer has nothing queued and its next vector goes out as a resync. */
  predicate Idle(cfg: Config, w: WriterState) {
    && w.items == [] && w.tillSync == 0 && Judge(cfg, w) == Synced
    && Room(cfg, []) > CONTROL_RESERVE && cfg.markCapacity >= 2
  }

  lemma IdlePush(cfg: Config, s: LinkState, samples: Vector, counter: u32, room: nat)
    requires Idle(cfg, s.w) && |samples| == |s.w.channels| && room >= 5 + 4 * |samples|
    ensures Admissible(cfg, s, Push(samples, counter))
    ensures var s' := AfterPump(AfterPush(cfg, s, samples, counter), room);
            && s'.frames == s.frames + [Resync(counter, Predicted(s.w.channels, samples))]
            && s'.w == WriterState(Predicted(s.w.channels, samples), [], cfg.period, false)
  {
    var record := Record(ResyncBytes(counter, Predicted(s.w.channels, samples)));
    assert [] + [record] == [record] && [record][1..] == [];
  }

  lemma IdleFlush(cfg: Config, s: LinkState, room: nat)
    requires s.w.items == [] && Room(cfg, []) > CONTROL_RESERVE && cfg.markCapacity >= 2 && room >= 1
    ensures Admissible(cfg, s, RequestFlush)
    ensures var s' := AfterPump(AfterFlush(cfg, s), room);
            s'.frames == s.frames + [FlushMark] && s'.w == WriterState(s.w.channels, [], 0, s.w.backpressure && false)
  {
    assert [] + [Record([FLUSH])] == [Record([FLUSH])] && [Record([FLUSH])][1..] == [];
  }

  /** Push, flush, push, each received and taken at once. */
  function FlushBetween(first: Vector, second: Vector, counter: u32, later: u32, room: nat): seq<Event> {
    [Push(first, counter), Transfer(room), RequestFlush, Transfer(room), Push(second, later), Transfer(room)]
  }

  lemma RunTwo(cfg: Config, s: LinkState, e1: Event, e2: Event, rest: seq<Event>)
    ensures var s' := Next(cfg, Next(cfg, s, e1), e2);
            && Run(cfg, s, [e1, e2] + rest) == Run(cfg, s', rest)
            && (Admissible(cfg, s, e1) && Admissible(cfg, Next(cfg, s, e1), e2) && AdmissibleRun(cfg, s', rest)
                ==> AdmissibleRun(cfg, s, [e1, e2] + rest))
  {
    hide Next, Admissible;
    var events := [e1, e2] + rest;
    assert events[1..] == [e2] + rest && events[1..][1..] == rest;
    RunUnfold(cfg, s, events);
    RunUnfold(cfg, Next(cfg, s, e1), events[1..]);
  }

  lemma FlushBetweenRun(cfg: Config, s: LinkState, first: Vector, second: Vector, counter: u32, later: u32, room: nat)
    requires Idle(cfg, s.w) && |first| == |s.w.channels| && |second| == |first| && room >= 5 + 4 * |first|
    ensures var events := FlushBetween(first, second, counter, later, room);
            var next := Predicted(s.w.channels, first);
            && AdmissibleRun(cfg, s, events)
            && Run(cfg, s, events).w.items == []
            && Run(cfg, s, events).frames
            == s.frames + [Resync(counter, next), FlushMark, Resync(later, Predicted(next, second))]
  {
    hide Predicted, Take, Decode, Judge, Run, AdmissibleRun, Admissible, AfterPush, AfterFlush, AfterPump, Room;
    var t := Transfer(room);
    var next := Predicted(s.w.channels, first);
    var s1 := Next(cfg, Next(cfg, s, Push(first, counter)), t);
    var s2 := Next(cfg, Next(cfg, s1, RequestFlush), t);
    var s3 := Next(cfg, Next(cfg, s2, Push(second, later)), t);
    var tail1 := [Push(second, later), t];
    var tail2 := [RequestFlush, t] + tail1;
    assert FlushBetween(first, second, counter, later, room) == [Push(first, counter), t] + tail2;
    assert tail1 == tail1 + [];
    TransferAdmissible(cfg, room);
    IdlePush(cfg, s, first, counter, room);
    IdleFlush(cfg, s1, room);
    IdleAgain(cfg, s.w, s2.w);
    IdlePush(cfg, s2, second, later, room);
    RunUnfold(cfg, s3, []);
    RunTwo(cfg, s2, Push(second, later), t, []);
    RunTwo(cfg, s1, RequestFlush, t, tail1);
    RunTwo(cfg, s, Push(first, counter), t, tail2);
    assert s.frames + [Resync(counter, next)] + [FlushMark] + [Resync(later, Predicted(next, second))]
        == s.frames + [Resync(counter, next), FlushMark, Resync(later, Predicted(next, second))];
  }

  lemma TransferAdmissible(cfg: Config, room: nat)
    ensures forall s :: Admissible(cfg, s, Transfer(room)) && AdmissibleRun(cfg, s, [])
  {
  }

  lemma IdleAgain(cfg: Config, w: WriterState, w': WriterState)
    requires Idle(cfg, w) && |w'.channels| == |w.channels| && w'.items == [] && w'.tillSync == 0 && !w'.backpressure
    ensures Idle(cfg, w')
  {
  }

  lemma HistoryOfOne(r: Frame)
    requires r.Resync?
    ensures After([r]) == Group(r.counter, [SamplesOf(r.start)], r.start)
    ensures Announced([r]) == [] && Vectors([r]) == [SamplesOf(r.start)]
    ensures Flat([SamplesOf(r.start)]) == SamplesOf(r.start)
  {
    assert [] + [r] == [r];
    HistorySnoc([], r);
    FlatOne(SamplesOf(r.start));
  }

  lemma AnnouncedTwice(r: Frame, later: Frame)
    requires r.Resync? && later.Resync?
    ensures var d := Delivery(r.counter, SamplesOf(r.start));
            Announced([r, FlushMark, later]) == [d, d]
    ensures Vectors([r, FlushMark, later]) == [SamplesOf(r.start), SamplesOf(later.start)]
  {
    hide After, Announced, Vectors, Flat;
    HistoryOfOne(r);
    assert [r] + [FlushMark] == [r, FlushMark] && [r, FlushMark] + [later] == [r, FlushMark, later];
    HistorySnoc([r], FlushMark);
    HistorySnoc([r, FlushMark], later);
    var d := Delivery(r.counter, SamplesOf(r.start));
    assert [] + [d] == [d] && [d] + [d] == [d, d];
    assert [SamplesOf(r.start)] + [] == [SamplesOf(r.start)];
  }

  lemma FreshIdle(cfg: Config, channels: seq<Channel>, readerChannels: seq<Channel>, capacity: nat)
    requires 1 <= |channels| && cfg.capacity > 1 + CONTROL_RESERVE * |channels| && cfg.markCapacity >= 2
    ensures var s := Fresh(channels, readerChannels, capacity);
            Idle(cfg, s.w) && s.w.channels == channels && s.frames == []
  {
  }

  lemma FlushBetweenAttentive(first: Vector, second: Vector, counter: u32, later: u32, room: nat)
    ensures Attentive(FlushBetween(first, second, counter, later, room))
  {
  }

  /** What fails: flushing between two pushes makes the consumer take the first block twice. */
  lemma FlushRepeatsBlock(cfg: Config, channels: seq<Channel>, readerChannels: seq<Channel>, capacity: nat,
                          first: Vector, second: Vector, counter: u32, later: u32, room: nat)
    requires 1 <= |channels| <= 14 && |readerChannels| == |channels| && capacity >= |channels| * (cfg.period + 1)
    requires cfg.capacity > 1 + CONTROL_RESERVE * |channels| && cfg.markCapacity >= 2 && room >= 5 + 4 * |channels|
    requires |first| == |channels| && |second| == |channels|
    ensures var events := FlushBetween(first, second, counter, later, room);
            var s := Run(cfg, Fresh(channels, readerChannels, capacity), events);
            && s.accepted == [first, second]
            && s.taken == [Delivery(counter, first), Delivery(counter, first)]
  {
    hide After, Announced, Vectors, Chained, Predicted, Run, AdmissibleRun, FlushBetween, Fresh, Attentive;
    var events := FlushBetween(first, second, counter, later, room);
    FreshIdle(cfg, channels, readerChannels, capacity);
    FlushBetweenRun(cfg, Fresh(channels, readerChannels, capacity), first, second, counter, later, room);
    FlushBetweenAttentive(first, second, counter, later, room);
    Delivered(cfg, channels, readerChannels, capacity, events);
    var next := Predicted(channels, first);
    PredictedCarriesSamples(channels, first);
    PredictedCarriesSamples(next, second);
    AnnouncedTwice(Resync(counter, next), Resync(later, Predicted(next, second)));
    assert [] + [Resync(counter, next), FlushMark, Resync(later, Predicted(next, second))]
        == [Resync(counter, next), FlushMark, Resync(later, Predicted(next, second))];
  }

  // ---------- Mark rings that cannot fill ----------

  predicate GapFree(cfg: Config, s: LinkState, e: Event) {
    e.Push? ==>
      && |e.samples| == |s.w.channels|
      && (Judge(cfg, s.w) == Written ==> forall d | d in Residuals(s.w.channels, e.samples) :: !InGap(d))
  }

  predicate GapFreeRun(cfg: Config, s: LinkState, events: seq<Event>)
    decreases |events|
  {
    events == [] || (GapFree(cfg, s, events[0]) && GapFreeRun(cfg, Next(cfg, s, events[0]), events[1..]))
  }

  /** With a mark ring no smaller than the byte ring, marks are never lost and only the residuals matter. */
  lemma {:induction false} MarksSuffice(cfg: Config, n: nat, s: LinkState, j: nat, p: nat, events: seq<Event>)
    requires InStep(cfg, n, s, j, p) && GapFreeRun(cfg, s, events) && cfg.markCapacity >= cfg.capacity
    ensures AdmissibleRun(cfg, s, events)
    decreases |events|
  {
    if events != [] {
      assert |s.w.channels| >= 1;
      RecordsFit(s.w.items);
      hide InStep, Next, Residuals, Records, Flatten, InGap;
      assert Admissible(cfg, s, events[0]);
      var jn, pn := NextStep(cfg, n, s, j, p, events[0]);
      MarksSuffice(cfg, n, Next(cfg, s, events[0]), jn, pn, events[1..]);
    }
  }
}
