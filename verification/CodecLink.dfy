/** The whole sample codec: every run of writer, queue and reader rebuilds the accepted vectors. */
module CodecLink {
  import opened Words
  import opened ResidualCode
  import opened CodecQueue
  import opened CodecDecoder
  import opened CodecFrames

  // ---------- Writer side: what is queued is the tail of the history ----------

  ghost predicate WriterAt(cfg: Config, w: WriterState, fs: seq<Frame>) {
    && Chained(fs, |w.channels|, cfg.period)
    && (w.backpressure ==> w.tillSync == 0)
    && (w.tillSync > 0 ==>
          var g := After(fs);
          && fs != [] && !Last(fs).FlushMark? && g.Group?
          && g.channels == w.channels && |g.vectors| + w.tillSync <= cfg.period + 1)
  }

  /** The frame an accepted vector adds to the history. */
  function PushFrames(cfg: Config, w: WriterState, samples: Vector, counter: u32): seq<Frame>
    requires |samples| == |w.channels|
  {
    match Judge(cfg, w)
    case Dropped => []
    case Synced => [Resync(counter, Predicted(w.channels, samples))]
    case Written => [Delta(samples, Residuals(w.channels, samples))]
  }

  lemma PredictedCarriesSamples(channels: seq<Channel>, samples: Vector)
    requires |samples| == |channels|
    ensures SamplesOf(Predicted(channels, samples)) == samples
    ensures FollowAll(channels, Residuals(channels, samples)) == Predicted(channels, samples)
  {
    var rebuilt := FollowAll(channels, Residuals(channels, samples));
    forall i | 0 <= i < |channels|
      ensures rebuilt[i] == Predicted(channels, samples)[i]
    {
      FollowUndoesPredict(channels[i], samples[i]);
    }
  }

  lemma SnocShape<T>(s: seq<T>, x: T)
    ensures (s + [x])[..|s|] == s && (s + [x])[|s|] == x
  {
  }

  lemma {:induction false} ExpandSnoc(fs: seq<Frame>, f: Frame)
    ensures Expand(fs + [f]) == Expand(fs) + FrameItems(f)
  {
    if fs == [] {
      assert fs + [f] == [f];
      assert FrameItems(f) + [] == FrameItems(f);
    } else {
      assert (fs + [f])[1..] == fs[1..] + [f];
      ExpandSnoc(fs[1..], f);
    }
  }

  lemma WriterPush(cfg: Config, w: WriterState, fs: seq<Frame>, samples: Vector, counter: u32)
    requires WriterAt(cfg, w, fs) && |samples| == |w.channels|
    requires Judge(cfg, w) == Synced ==> Records(w.items) + 1 < cfg.markCapacity
    ensures var w' := PushSample(cfg, w, samples, counter);
            var new' := PushFrames(cfg, w, samples, counter);
            && WriterAt(cfg, w', fs + new')
            && w'.items == w.items + Expand(new')
            && Vectors(fs + new') == Vectors(fs) + if Judge(cfg, w) == Dropped then [] else [samples]
  {
    hide Predicted, Residuals, EncodeAll, ResyncBytes, Room, Chained, After, Vectors, Expand, Codes;
    var new' := PushFrames(cfg, w, samples, counter);
    PredictedCarriesSamples(w.channels, samples);
    if new' == [] {
      assert fs + [] == fs && w.items + [] == w.items && Vectors(fs) + [] == Vectors(fs);
      ExpandNone();
    } else {
      ChainedSnoc(fs, new'[0], |w.channels|, cfg.period);
      ExpandOne(new'[0]);
    }
  }

  lemma ExpandNone()
    ensures Expand([]) == []
  {
  }

  lemma ExpandOne(f: Frame)
    ensures Expand([f]) == FrameItems(f)
  {
    assert FrameItems(f) + [] == FrameItems(f);
  }

  /** A frame that may follow a history makes it longer by itself. */
  lemma ChainedSnoc(fs: seq<Frame>, f: Frame, n: nat, period: nat)
    requires Chained(fs, n, period)
    ensures Follows(fs, f, n, period) ==> Chained(fs + [f], n, period)
    ensures After(fs + [f]) == AfterFrame(After(fs), f) && Vectors(fs + [f]) == Vectors(fs) + VectorOf(f)
    ensures Last(fs + [f]) == f
  {
    HistorySnoc(fs, f);
    SnocShape(fs, f);
  }

  lemma WriterFlush(cfg: Config, w: WriterState, fs: seq<Frame>)
    requires WriterAt(cfg, w, fs)
    requires Room(cfg, w.items) > CONTROL_RESERVE ==> Records(w.items) + 1 < cfg.markCapacity
    ensures var (w', ok) := Flush(cfg, w);
            var new' := if ok then [FlushMark] else [];
            && WriterAt(cfg, w', fs + new')
            && w'.items == w.items + Expand(new')
            && Vectors(fs + new') == Vectors(fs)
  {
    SnocShape(fs, FlushMark);
    assert fs + [] == fs && w.items + [] == w.items && Vectors(fs) + [] == Vectors(fs);
    assert Expand([FlushMark]) == FrameItems(FlushMark) + [];
  }

  // ---------- Positions in the history ----------

  /** `p` items of frame `j` and all frames before have been read. */
  predicate At(fs: seq<Frame>, j: nat, p: nat) {
    j <= |fs| && if j < |fs| then p < |FrameItems(fs[j])| else p == 0
  }

  /** What is left to read at a position. */
  function Rest(fs: seq<Frame>, j: nat, p: nat): seq<Item>
    requires At(fs, j, p)
  {
    if j < |fs| then FrameItems(fs[j])[p..] + Expand(fs[j + 1..]) else []
  }

  lemma RestGrows(fs: seq<Frame>, f: Frame, j: nat, p: nat)
    requires At(fs, j, p) && FrameItems(f) != []
    ensures At(fs + [f], j, p) && Rest(fs + [f], j, p) == Rest(fs, j, p) + FrameItems(f)
  {
    hide FrameItems, Expand;
    var fs' := fs + [f];
    if j < |fs| {
      assert fs'[j] == fs[j] && fs'[j + 1..] == fs[j + 1..] + [f];
      ExpandSnoc(fs[j + 1..], f);
      ConcatAssoc(FrameItems(fs[j])[p..], Expand(fs[j + 1..]), FrameItems(f));
    } else {
      assert fs'[j] == f && fs'[j + 1..] == fs'[j..][1..];
      ExpandHead(fs', j + 1);
      assert [] + FrameItems(f) == FrameItems(f)[0..] + [] == FrameItems(f);
    }
  }

  /** The position after reading one more item. */
  function Advance(fs: seq<Frame>, j: nat, p: nat): (nat, nat)
    requires At(fs, j, p) && j < |fs|
  {
    if p + 1 < |FrameItems(fs[j])| then (j, p + 1) else (j + 1, 0)
  }

  lemma RestAdvance(fs: seq<Frame>, j: nat, p: nat)
    requires At(fs, j, p) && j < |fs| && forall k | 0 <= k < |fs| :: FrameItems(fs[k]) != []
    ensures var (j', p') := Advance(fs, j, p);
            && At(fs, j', p')
            && Rest(fs, j, p) == [FrameItems(fs[j])[p]] + Rest(fs, j', p')
  {
    hide FrameItems, Expand;
    var items, later := FrameItems(fs[j]), Expand(fs[j + 1..]);
    if p + 1 < |items| {
      assert items[p..] == [items[p]] + items[p + 1..];
      ConcatAssoc([items[p]], items[p + 1..], later);
    } else {
      assert items[p..] == [items[p]];
      ExpandHead(fs, j + 1);
    }
  }

  lemma ExpandHead(fs: seq<Frame>, j: nat)
    requires j <= |fs|
    ensures Expand(fs[j..]) == if j < |fs| then FrameItems(fs[j])[0..] + Expand(fs[j + 1..]) else []
  {
    if j < |fs| {
      assert fs[j..][1..] == fs[j + 1..];
      assert FrameItems(fs[j])[0..] == FrameItems(fs[j]);
    }
  }

  // ---------- Reader side: what has been rebuilt at a position ----------

  /** The decoder inside frame `j` after `p` of its bytes. */
  function Partial(fs: seq<Frame>, j: nat, p: nat): (Phase, seq<i16>)
    requires At(fs, j, p)
  {
    if j < |fs| && fs[j].Delta? then
      assert p < |EncodeAll(fs[j].dods)|;
      DecodeAll(AtCode, EncodeAll(fs[j].dods)[..p])
    else (AtCode, [])
  }

  ghost predicate ReaderAt(r: ReaderState, fs: seq<Frame>, j: nat, p: nat, n: nat)
    requires At(fs, j, p)
  {
    var g := After(fs[..j]);
    && |r.channels| == n
    && (r.inSync <==> g.Group?)
    && (if !r.inSync then p == 0 && r.mode == Decoding(AtCode) && r.dods == []
        else if r.mode.Pending? then
          && p == 0 && r.dods == [] && j > 0 && fs[j - 1].Resync?
          && r.mode.payload == ResyncBytes(fs[j - 1].counter, fs[j - 1].start)[1..]
        else
          && r.block.counter == g.counter && r.block.samples == Flat(g.vectors) && r.channels == g.channels
          && (r.mode.phase, r.dods) == Partial(fs, j, p))
    && (r.block.ready ==> ReadyAt(r, fs, j))
  }

  /** A ready block is the latest announcement, and it was announced by the record just read. */
  ghost predicate ReadyAt(r: ReaderState, fs: seq<Frame>, j: nat)
    requires j <= |fs|
  {
    && Announced(fs[..j]) != []
    && Delivery(r.block.counter, r.block.samples) == Last(Announced(fs[..j]))
    && (r.mode.Pending? || (j > 0 && fs[j - 1].FlushMark?))
  }

  // ---------- Resync records ----------

  lemma WordRoundTrip(w: i16)
    ensures Word(Hi(w), Lo(w)) == w
  {
  }

  lemma {:induction false} ChannelBytesAt(cs: seq<Channel>, i: nat)
    requires i < |cs|
    ensures ChannelBytes(cs)[4 * i..4 * i + 4] == WordBytes(cs[i].sample) + WordBytes(cs[i].delta)
  {
    if i > 0 {
      ChannelBytesAt(cs[1..], i - 1);
      assert ChannelBytes(cs)[4..] == ChannelBytes(cs[1..]);
      assert ChannelBytes(cs)[4 * i..4 * i + 4] == ChannelBytes(cs)[4..][4 * (i - 1)..4 * (i - 1) + 4];
    }
  }

  /** A resync payload gives back the counter and the channels it was written from. */
  lemma ResyncRoundTrip(counter: u32, start: seq<Channel>)
    ensures var payload := ResyncBytes(counter, start)[1..];
            ReadCounter(payload) == counter && ReadChannels(payload[4..], |start|) == start
  {
    var payload := ResyncBytes(counter, start)[1..];
    hide ReadChannels, ChannelBytes;
    assert payload == CounterBytes(counter) + ChannelBytes(start);
    CounterRoundTrip(counter, ChannelBytes(start));
    assert payload[4..] == ChannelBytes(start);
    ChannelsRoundTrip(start);
  }

  lemma CounterRoundTrip(counter: u32, rest: seq<u8>)
    ensures ReadCounter(CounterBytes(counter) + rest) == counter
  {
    var b := CounterBytes(counter);
    assert forall i | 0 <= i < 4 :: (b + rest)[i] == b[i];
    CounterDigits(counter);
    hide CounterBytes;
    assert ReadCounter(b + rest) == Be32(b[0], b[1], b[2], b[3]);
  }

  lemma CounterDigits(counter: u32)
    ensures var b := CounterBytes(counter);
            |b| == 4 && Be32(b[0], b[1], b[2], b[3]) == counter
  {
    var x, y, z := counter / 0x100, counter / 0x1_0000, counter / 0x100_0000;
    assert counter == 0x100 * x + counter % 0x100;
    assert y == x / 0x100 && x == 0x100 * y + x % 0x100;
    assert z == y / 0x100 && y == 0x100 * z + y % 0x100;
  }

  lemma ChannelsRoundTrip(start: seq<Channel>)
    ensures ReadChannels(ChannelBytes(start), |start|) == start
  {
    hide ChannelBytes, Word, WordBytes;
    var bytes := ChannelBytes(start);
    forall i | 0 <= i < |start|
      ensures ReadChannels(bytes, |start|)[i] == start[i]
    {
      ChannelRoundTrip(start, i);
    }
  }

  lemma ChannelRoundTrip(start: seq<Channel>, i: nat)
    requires i < |start|
    ensures var bytes := ChannelBytes(start);
            Channel(Word(bytes[4 * i], bytes[4 * i + 1]), Word(bytes[4 * i + 2], bytes[4 * i + 3])) == start[i]
  {
    ChannelBytesAt(start, i);
    hide ChannelBytes, Word;
    var quad := ChannelBytes(start)[4 * i..4 * i + 4];
    assert forall k | 0 <= k < 4 :: quad[k] == ChannelBytes(start)[4 * i + k];
    assert quad[0] == Hi(start[i].sample) && quad[1] == Lo(start[i].sample);
    assert quad[2] == Hi(start[i].delta) && quad[3] == Lo(start[i].delta);
    WordRoundTrip(start[i].sample);
    WordRoundTrip(start[i].delta);
  }

  /** The value of a big-endian word of two bytes, up to a multiple of 2^16. */
  predicate Spells(hi: u8, lo: u8, value: i16) {
    256 * hi as int + lo == value || 256 * hi as int + lo == value + 0x1_0000
  }

  lemma WordSpells(w: i16)
    ensures Spells(WordBytes(w)[0], WordBytes(w)[1], w)
  {
  }

  /** The counter follows the code 0xFF, big-endian. */
  lemma ResyncCounter(counter: u32, start: seq<Channel>)
    ensures var b := ResyncBytes(counter, start);
            && |b| == 5 + 4 * |start| && b[0] == 0xFF
            && 0x100_0000 * b[1] as int + 0x1_0000 * b[2] as int + 0x100 * b[3] as int + b[4] as int == counter
  {
    CounterDigits(counter);
    var c := CounterBytes(counter);
    hide ChannelBytes, CounterBytes;
    assert forall k | 0 <= k < 4 :: ResyncBytes(counter, start)[k + 1] == c[k];
  }

  /** On the wire a resync is 0xFF, the counter, and sample and delta of every channel, all big-endian. */
  lemma ResyncMeaning(counter: u32, start: seq<Channel>, i: nat)
    requires i < |start|
    ensures var b := ResyncBytes(counter, start);
            && |b| == 5 + 4 * |start| && b[0] == 0xFF
            && 0x100_0000 * b[1] as int + 0x1_0000 * b[2] as int + 0x100 * b[3] as int + b[4] as int == counter
            && Spells(b[5 + 4 * i], b[6 + 4 * i], start[i].sample)
            && Spells(b[7 + 4 * i], b[8 + 4 * i], start[i].delta)
  {
    ResyncCounter(counter, start);
    WordSpells(start[i].sample);
    WordSpells(start[i].delta);
    ChannelBytesAt(start, i);
    var s, d := WordBytes(start[i].sample), WordBytes(start[i].delta);
    assert |s| == 2 && |d| == 2;
    hide ChannelBytes, Spells, WordBytes, CounterBytes;
    var b, quad := ResyncBytes(counter, start), ChannelBytes(start)[4 * i..4 * i + 4];
    QuadAt(counter, start, i);
    assert forall k | 0 <= k < 4 :: quad[k] == b[5 + 4 * i + k];
    assert quad[0] == s[0] && quad[1] == s[1] && quad[2] == d[0] && quad[3] == d[1];
  }

  lemma QuadAt(counter: u32, start: seq<Channel>, i: nat)
    requires i < |start|
    ensures |ResyncBytes(counter, start)| == 5 + 4 * |start|
    ensures ChannelBytes(start)[4 * i..4 * i + 4] == ResyncBytes(counter, start)[5 + 4 * i..9 + 4 * i]
  {
    var c := CounterBytes(counter);
    hide ChannelBytes, CounterBytes;
    assert forall k | 0 <= k < 4 * |start| :: ChannelBytes(start)[k] == ResyncBytes(counter, start)[5 + k];
  }

  /**
   * What the decoder answers. Sample bytes need a resync before them; a record is a resync of the right size that fits
   * the scratch buffer, or a flush, and closes the block if there was a resync before; anything else changes nothing.
   */
  lemma DecodeOutcome(r: ReaderState, bytes: seq<u8>, kind: Kind)
    requires bytes != []
    ensures var (r', err) := Decode(r, bytes, kind);
            var resync := bytes[0] == 0xFF && |bytes| == 5 + 4 * |r.channels| <= 64;
            && (kind == Sample ==> err == if r.inSync then OK else NeedSync)
            && (kind == Control ==>
                  && err == (if resync || bytes[0] == 0xFE then OK else if bytes[0] == 0xFF then ResyncBad else Fault)
                  && (err == OK && r.inSync ==> r'.block.ready)
                  && r'.inSync == (r.inSync || resync)
                  && (resync ==> r'.mode == Pending(bytes[1..])))
            && (!r.inSync && !(kind == Control && err == OK) ==> r' == r)
  {
    hide Feed, ReadChannels, ReadCounter;
  }

  /** Resync records of more than fourteen channels do not fit the decoder's scratch buffer: it never gets into sync. */
  lemma ResyncAcceptedIff(r: ReaderState, counter: u32, start: seq<Channel>)
    requires |start| == |r.channels|
    ensures DecodeControl(r, ResyncBytes(counter, start)).1 == OK <==> |start| <= 14
    ensures |start| > 14 ==> DecodeControl(r, ResyncBytes(counter, start)).0 == r
  {
  }

  // ---------- One step of the reader ----------

  /** What every history must satisfy: a stream the writer made, free of the residuals the decoder misreads. */
  ghost predicate Sound(fs: seq<Frame>, n: nat, period: nat) {
    && 1 <= n <= 14
    && Chained(fs, n, period)
    && forall k | 0 <= k < |fs| :: Clear(fs[k])
  }

  predicate Clear(f: Frame) {
    f.Delta? ==> forall d | d in f.dods :: !InGap(d)
  }

  lemma FramesNonEmpty(fs: seq<Frame>, n: nat, period: nat)
    requires Sound(fs, n, period)
    ensures forall k | 0 <= k < |fs| :: FrameItems(fs[k]) != []
  {
    forall k | 0 <= k < |fs|
      ensures FrameItems(fs[k]) != []
    {
      ChainedPrefix(fs, k, n, period);
    }
  }

  /** Any nonempty piece first applies a pending resync. */
  lemma LoadStep(r: ReaderState, fs: seq<Frame>, j: nat, p: nat, n: nat, period: nat)
    requires At(fs, j, p) && Sound(fs, n, period) && ReaderAt(r, fs, j, p, n) && r.block.capacity >= n
    ensures ReaderAt(Load(r), fs, j, p, n) && !Load(r).mode.Pending?
    ensures Load(r).inSync == r.inSync && Load(r).block.capacity == r.block.capacity
  {
    hide Flat, After, Announced, Chained, ReadChannels, ReadCounter, EncodeAll;
    if r.mode.Pending? {
      ChainedPrefix(fs, j - 1, n, period);
      assert fs[..j - 1 + 1] == fs[..j];
      ResyncRoundTrip(fs[j - 1].counter, fs[j - 1].start);
      FlatOne(SamplesOf(fs[j - 1].start));
    }
  }

  /** Reading a whole control record. */
  lemma ControlStep(r: ReaderState, fs: seq<Frame>, j: nat, n: nat, period: nat)
    requires j < |fs| && Closing(fs[j]) && Sound(fs, n, period)
    requires At(fs, j, 0) && ReaderAt(r, fs, j, 0, n) && !r.mode.Pending?
    ensures At(fs, j + 1, 0)
    ensures var (r', err) := DecodeControl(r, FrameItems(fs[j])[0].bytes);
            && err == OK && r'.block.capacity == r.block.capacity
            && ReaderAt(r', fs, j + 1, 0, n)
            && (!r.block.ready ==> Announced(fs[..j + 1]) == Announced(fs[..j]) + Offer(r'))
  {
    ControlAdvance(fs, j, n, period);
    if fs[j].Resync? { ResyncStep(r, fs, j, n, period); } else { FlushStep(r, fs, j, n, period); }
  }

  lemma ControlAdvance(fs: seq<Frame>, j: nat, n: nat, period: nat)
    requires j < |fs| && Closing(fs[j]) && Sound(fs, n, period) && At(fs, j, 0)
    ensures At(fs, j + 1, 0)
  {
    FramesNonEmpty(fs, n, period);
    RestAdvance(fs, j, 0);
  }

  lemma ResyncStep(r: ReaderState, fs: seq<Frame>, j: nat, n: nat, period: nat)
    requires j < |fs| && fs[j].Resync? && Sound(fs, n, period) && At(fs, j + 1, 0)
    requires At(fs, j, 0) && ReaderAt(r, fs, j, 0, n) && !r.mode.Pending?
    ensures var (r', err) := DecodeControl(r, FrameItems(fs[j])[0].bytes);
            && err == OK && r'.block.capacity == r.block.capacity
            && ReaderAt(r', fs, j + 1, 0, n)
            && (!r.block.ready ==> Announced(fs[..j + 1]) == Announced(fs[..j]) + Offer(r'))
  {
    hide EncodeAll, DecodeAll, Flat, After, Announced, Chained;
    ChainedPrefix(fs, j, n, period);
    AnnouncedPrefix(fs, j);
  }

  lemma FlushStep(r: ReaderState, fs: seq<Frame>, j: nat, n: nat, period: nat)
    requires j < |fs| && fs[j].FlushMark? && Sound(fs, n, period) && At(fs, j + 1, 0)
    requires At(fs, j, 0) && ReaderAt(r, fs, j, 0, n) && !r.mode.Pending?
    ensures var (r', err) := DecodeControl(r, FrameItems(fs[j])[0].bytes);
            && err == OK && r'.block.capacity == r.block.capacity
            && ReaderAt(r', fs, j + 1, 0, n)
            && (!r.block.ready ==> Announced(fs[..j + 1]) == Announced(fs[..j]) + Offer(r'))
  {
    ChainedPrefix(fs, j, n, period);
    AnnouncedPrefix(fs, j);
  }

  /** What a consumer that looks now would get. */
  function Offer(r: ReaderState): seq<Delivery> {
    if r.block.ready then [Delivery(r.block.counter, r.block.samples)] else []
  }

  /** Before the last byte of a vector's codes fewer residuals are complete than there are channels. */
  lemma {:induction false} PrefixShort(ds: seq<i16>, p: nat)
    requires p < |EncodeAll(ds)| && forall d | d in ds :: !InGap(d)
    ensures |DecodeAll(AtCode, EncodeAll(ds)[..p]).1| < |ds|
  {
    var code, rest := Encode(ds[0]), EncodeAll(ds[1..]);
    if p < |code| {
      assert EncodeAll(ds)[..p] == code[..p];
      CodePrefixSilent(ds[0], p);
    } else {
      assert EncodeAll(ds)[..p] == code + rest[..p - |code|];
      DecodeOne(ds[0], rest[..p - |code|], true);
      PrefixShort(ds[1..], p - |code|);
    }
  }

  lemma CodePrefixSilent(d: i16, p: nat)
    requires p < |Encode(d)| && !InGap(d)
    ensures DecodeAll(AtCode, Encode(d)[..p]).1 == []
  {
    var code := Encode(d);
    if p >= 1 {
      DecodeByte(AtCode, code[0], true);
      assert code[..1] == [code[0]];
    }
    if p == 2 {
      DecodeByte(InLarge([]), code[1], true);
      assert code[..2] == [code[0]] + [code[1]];
      DecodeConcat(AtCode, [code[0]], [code[1]], true);
    }
  }

  /** The residual decoder over one more byte of a frame. */
  lemma PartialStep(ds: seq<i16>, p: nat)
    requires p < |EncodeAll(ds)| && forall d | d in ds :: !InGap(d)
    ensures var bytes := EncodeAll(ds);
            var (phase, dods) := DecodeAll(AtCode, bytes[..p]);
            var (phase', now) := Step(phase, bytes[p]);
            && |dods| < |ds|
            && DecodeAll(AtCode, bytes[..p + 1]) == (phase', dods + now)
            && (if p + 1 < |bytes| then |dods + now| < |ds| else (phase', dods + now) == (AtCode, ds))
  {
    hide EncodeAll, DecodeAll, Step;
    var bytes := EncodeAll(ds);
    PrefixShort(ds, p);
    DecodeConcat(AtCode, bytes[..p], [bytes[p]], true);
    DecodeByte(DecodeAll(AtCode, bytes[..p]).0, bytes[p], true);
    assert bytes[..p] + [bytes[p]] == bytes[..p + 1];
    if p + 1 < |bytes| {
      PrefixShort(ds, p + 1);
    } else {
      assert bytes[..p + 1] == bytes;
      RoundTrip(ds, true);
    }
  }

  /** Residuals only follow a vector of their group, never a flush, so no announced block is still up. */
  lemma DeltaNotReady(r: ReaderState, fs: seq<Frame>, j: nat, p: nat, n: nat, period: nat)
    requires j < |fs| && fs[j].Delta? && Sound(fs, n, period)
    requires At(fs, j, p) && ReaderAt(r, fs, j, p, n) && !r.mode.Pending?
    ensures r.inSync && !r.block.ready
  {
    hide EncodeAll, DecodeAll, Partial, Flat, Announced, ResyncBytes;
    ChainedPrefix(fs, j, n, period);
    if j > 0 { assert Last(fs[..j]) == fs[j - 1]; }
  }

  /** The reader after the residual decoder has taken a byte, before a complete vector is emitted. */
  function Taken(r: ReaderState, b: u8): ReaderState
    requires r.mode.Decoding?
  {
    var (phase, now) := Step(r.mode.phase, b);
    r.(mode := Decoding(phase), dods := r.dods + now)
  }

  /** Inside a frame, the byte only moves the residual decoder on. */
  lemma ByteInside(r: ReaderState, fs: seq<Frame>, j: nat, p: nat, n: nat)
    requires j < |fs| && fs[j].Delta? && |fs[j].dods| == n
    requires At(fs, j, p) && ReaderAt(r, fs, j, p, n) && r.inSync && r.mode.Decoding? && !r.block.ready
    requires At(fs, j, p + 1) && forall d | d in fs[j].dods :: !InGap(d)
    ensures FeedByte(r, EncodeAll(fs[j].dods)[p]) == Taken(r, EncodeAll(fs[j].dods)[p])
    ensures ReaderAt(Taken(r, EncodeAll(fs[j].dods)[p]), fs, j, p + 1, n)
  {
    hide EncodeAll, DecodeAll, Step, Announced, Flat, ReadyAt, After;
    PartialStep(fs[j].dods, p);
  }

  /** At the end of a frame all its residuals are there. */
  lemma ByteLast(r: ReaderState, fs: seq<Frame>, j: nat, p: nat, n: nat)
    requires j < |fs| && fs[j].Delta? && |fs[j].dods| == n
    requires At(fs, j, p) && ReaderAt(r, fs, j, p, n) && r.inSync && r.mode.Decoding? && !r.block.ready
    requires p + 1 == |EncodeAll(fs[j].dods)| && forall d | d in fs[j].dods :: !InGap(d)
    ensures var q := Taken(r, EncodeAll(fs[j].dods)[p]);
            && FeedByte(r, EncodeAll(fs[j].dods)[p]) == Emit(q)
            && q == r.(mode := Decoding(AtCode), dods := fs[j].dods)
  {
    hide EncodeAll, DecodeAll, Step, Announced, Flat, ReadyAt, After, Emit;
    PartialStep(fs[j].dods, p);
  }

  /** Reading one byte of sample code. */
  lemma ByteStep(r: ReaderState, fs: seq<Frame>, j: nat, p: nat, n: nat, period: nat)
    requires j < |fs| && fs[j].Delta? && Sound(fs, n, period)
    requires At(fs, j, p) && ReaderAt(r, fs, j, p, n) && !r.mode.Pending?
    requires r.block.capacity >= n * (period + 1)
    ensures p < |EncodeAll(fs[j].dods)| && |r.dods| < n && !r.block.ready
    ensures var (j', p') := Advance(fs, j, p);
            var r' := FeedByte(r, EncodeAll(fs[j].dods)[p]);
            && At(fs, j', p')
            && ReaderAt(r', fs, j', p', n)
            && !r'.mode.Pending? && !r'.block.ready && r'.block.capacity == r.block.capacity
            && Announced(fs[..j']) == Announced(fs[..j])
  {
    hide EncodeAll, DecodeAll, Step, Announced, Flat, ReadyAt, FeedByte, Emit, ReaderAt, After, Chained;
    var bytes := EncodeAll(fs[j].dods);
    FrameSize(fs[j]);
    ByteContext(r, fs, j, p, n, period);
    FramesNonEmpty(fs, n, period);
    RestAdvance(fs, j, p);
    if p + 1 < |bytes| {
      ByteInside(r, fs, j, p, n);
    } else {
      ByteLast(r, fs, j, p, n);
      VectorComplete(Taken(r, bytes[p]), fs, j, n, period);
    }
  }

  lemma FrameSize(f: Frame)
    requires f.Delta?
    ensures |FrameItems(f)| == |EncodeAll(f.dods)|
    ensures forall p | 0 <= p < |FrameItems(f)| :: FrameItems(f)[p] == Code(EncodeAll(f.dods)[p])
  {
  }

  /** What is known before a byte of sample code is read. */
  lemma ByteContext(r: ReaderState, fs: seq<Frame>, j: nat, p: nat, n: nat, period: nat)
    requires j < |fs| && fs[j].Delta? && Sound(fs, n, period)
    requires At(fs, j, p) && ReaderAt(r, fs, j, p, n) && !r.mode.Pending?
    ensures r.inSync && !r.block.ready && |r.dods| < n && |fs[j].dods| == n && Clear(fs[j])
    ensures Announced(fs[..j + 1]) == Announced(fs[..j])
    ensures var g := After(fs[..j]);
            g.Group? && r.block.counter == g.counter && r.block.samples == Flat(g.vectors) && r.channels == g.channels
  {
    ChainedPrefix(fs, j, n, period);
    AnnouncedPrefix(fs, j);
    DeltaNotReady(r, fs, j, p, n, period);
    assert Clear(fs[j]);
    PrefixShort(fs[j].dods, p);
  }

  /** A complete residual vector fits the block and becomes the next vector of the group. */
  lemma VectorComplete(q: ReaderState, fs: seq<Frame>, j: nat, n: nat, period: nat)
    requires j < |fs| && fs[j].Delta? && Sound(fs, n, period)
    requires q.inSync && q.mode == Decoding(AtCode) && q.dods == fs[j].dods && !q.block.ready
    requires var g := After(fs[..j]);
             g.Group? && q.block.counter == g.counter && q.block.samples == Flat(g.vectors) && q.channels == g.channels
    requires q.block.capacity >= n * (period + 1)
    requires At(fs, j + 1, 0)
    ensures ReaderAt(Emit(q), fs, j + 1, 0, n) && !Emit(q).block.ready
    ensures Emit(q).mode == q.mode && Emit(q).block.capacity == q.block.capacity
  {
    var g := After(fs[..j]);
    ChainedPrefix(fs, j, n, period);
    GroupShape(fs[..j], n, period);
    FlatLength(g.vectors, n);
    MulOrder(n, |g.vectors|, period);
    FlatSnoc(g.vectors, fs[j].vector);
    assert EncodeAll(fs[j].dods)[..0] == [];
    hide Chained, Flat, Announced, FrameItems, EncodeAll, Sound;
  }

  lemma MulOrder(n: nat, a: nat, b: nat)
    requires a <= b
    ensures n * (b + 1) >= n * a + n
  {
    assert n * (b + 1) - (n * a + n) == n * (b - a);
  }

  // ---------- One piece ----------

  lemma HeadIsCode(fs: seq<Frame>, j: nat, p: nat)
    requires At(fs, j, p) && Rest(fs, j, p) != [] && forall k | 0 <= k < |fs| :: FrameItems(fs[k]) != []
    ensures j < |fs| && Rest(fs, j, p)[0] == FrameItems(fs[j])[p]
    ensures Rest(fs, j, p)[0].Code? ==> fs[j].Delta? && p < |EncodeAll(fs[j].dods)|
    ensures Rest(fs, j, p)[0].Code? ==> Rest(fs, j, p)[0] == Code(EncodeAll(fs[j].dods)[p])
    ensures Rest(fs, j, p)[0].Record? ==> Closing(fs[j]) && p == 0
  {
    RestAdvance(fs, j, p);
  }

  lemma FlattenHead(items: seq<Item>, k: nat)
    requires 0 < k <= |items| && items[0].Code?
    ensures Flatten(items[..k]) == [items[0].byte] + Flatten(items[1..][..k - 1])
  {
    assert items[..k][1..] == items[1..][..k - 1];
  }

  lemma FeedHead(r: ReaderState, b: u8, rest: seq<u8>)
    ensures Feed(r, [b] + rest) == Feed(FeedByte(r, b), rest)
    ensures |r.dods| < |r.channels| && Safe(FeedByte(r, b), rest) ==> Safe(r, [b] + rest)
  {
    assert ([b] + rest)[1..] == rest;
  }

  /** Sample bytes may be cut anywhere, within a code or across vectors. */
  lemma {:induction false} FeedCodes(r: ReaderState, fs: seq<Frame>, j: nat, p: nat, k: nat, n: nat, period: nat)
    returns (j': nat, p': nat)
    requires At(fs, j, p) && Sound(fs, n, period) && ReaderAt(r, fs, j, p, n) && !r.mode.Pending?
    requires r.block.capacity >= n * (period + 1)
    requires k <= Lead(Rest(fs, j, p))
    ensures At(fs, j', p') && Rest(fs, j', p') == Rest(fs, j, p)[k..]
    ensures var bytes := Flatten(Rest(fs, j, p)[..k]);
            && Safe(r, bytes)
            && ReaderAt(Feed(r, bytes), fs, j', p', n)
            && Feed(r, bytes).block.capacity == r.block.capacity
            && (k > 0 ==> !Feed(r, bytes).block.ready && !r.block.ready)
    ensures Announced(fs[..j']) == Announced(fs[..j])
    decreases k
  {
    var items := Rest(fs, j, p);
    if k == 0 {
      j', p' := j, p;
      assert items[..0] == [] && items[0..] == items;
    } else {
      hide Announced, Flat, ReaderAt, After, Chained, FeedByte, Feed, Safe, Flatten, FrameItems, Sound, EncodeAll;
      FramesNonEmpty(fs, n, period);
      HeadIsCode(fs, j, p);
      ByteStep(r, fs, j, p, n, period);
      RestAdvance(fs, j, p);
      FlattenHead(items, k);
      ReaderChannels(r, fs, j, p, n);
      var b := items[0].byte;
      var (jn, pn) := Advance(fs, j, p);
      assert items[1..] == Rest(fs, jn, pn);
      j', p' := FeedCodes(FeedByte(r, b), fs, jn, pn, k - 1, n, period);
      FeedHead(r, b, Flatten(items[1..][..k - 1]));
      assert items[k..] == items[1..][k - 1..];
    }
  }

  lemma ReaderChannels(r: ReaderState, fs: seq<Frame>, j: nat, p: nat, n: nat)
    requires At(fs, j, p) && ReaderAt(r, fs, j, p, n)
    ensures |r.channels| == n
  {
  }

  lemma RecordRead(r: ReaderState, fs: seq<Frame>, j: nat, n: nat, period: nat)
    requires j < |fs| && Closing(fs[j]) && Sound(fs, n, period)
    requires At(fs, j, 0) && ReaderAt(r, fs, j, 0, n) && r.block.capacity >= n
    ensures |FrameItems(fs[j])| == 1 && FrameItems(fs[j])[0].Record? && FrameItems(fs[j])[0].bytes != []
    ensures At(fs, j + 1, 0)
    ensures var r' := Decode(r, FrameItems(fs[j])[0].bytes, Control).0;
            && ReaderAt(r', fs, j + 1, 0, n) && r'.block.capacity == r.block.capacity
            && (!r.block.ready ==> Announced(fs[..j + 1]) == Announced(fs[..j]) + Offer(r'))
  {
    LoadStep(r, fs, j, 0, n, period);
    ReaderChannels(r, fs, j, 0, n);
    assert !r.block.ready ==> !Load(r).block.ready;
    assert |FrameItems(fs[j])| == 1;
    hide Announced, ReaderAt, After, Chained, Sound, Load, DecodeControl;
    ControlStep(Load(r), fs, j, n, period);
  }

  lemma CodesRead(r: ReaderState, fs: seq<Frame>, j: nat, p: nat, k: nat, n: nat, period: nat)
    returns (j': nat, p': nat)
    requires At(fs, j, p) && Sound(fs, n, period) && ReaderAt(r, fs, j, p, n)
    requires r.block.capacity >= n * (period + 1) && r.block.capacity >= n
    requires k <= Lead(Rest(fs, j, p))
    ensures At(fs, j', p') && Rest(fs, j', p') == Rest(fs, j, p)[k..]
    ensures var bytes := Flatten(Rest(fs, j, p)[..k]);
            && Safe(Load(r), bytes)
            && var r' := Decode(r, bytes, Sample).0;
               && ReaderAt(r', fs, j', p', n) && r'.block.capacity == r.block.capacity
               && (!r.block.ready ==> Announced(fs[..j']) == Announced(fs[..j]) + Offer(r'))
  {
    hide Announced, ReaderAt, After, Chained, Load, Feed, Safe, Flatten, Sound, FrameItems, Decode, Rest, Lead, Offer;
    LoadStep(r, fs, j, p, n, period);
    ReaderChannels(r, fs, j, p, n);
    var bytes := Flatten(Rest(fs, j, p)[..k]);
    if k == 0 {
      j', p' := j, p;
      EmptyRead(Rest(fs, j, p));
      DecodeEmpty(r);
      assert Announced(fs[..j]) + [] == Announced(fs[..j]);
    } else {
      LeadLayout(Rest(fs, j, p), k);
      FramesNonEmpty(fs, n, period);
      HeadIsCode(fs, j, p);
      ByteContext(Load(r), fs, j, p, n, period);
      j', p' := FeedCodes(Load(r), fs, j, p, k, n, period);
      DecodeIsFeed(r, bytes);
      assert Announced(fs[..j']) + [] == Announced(fs[..j']);
    }
  }

  lemma DecodeEmpty(r: ReaderState)
    ensures Decode(r, [], Sample).0 == r && Safe(Load(r), [])
    ensures !r.block.ready ==> Offer(r) == []
  {
  }

  lemma DecodeIsFeed(r: ReaderState, bytes: seq<u8>)
    requires bytes != [] && Load(r).inSync
    ensures Decode(r, bytes, Sample).0 == Feed(Load(r), bytes)
    ensures !Feed(Load(r), bytes).block.ready ==> Offer(Feed(Load(r), bytes)) == []
  {
  }

  /** What a read hands out keeps reader and history in step, whatever the room of the caller's buffer. */
  lemma PieceStep(r: ReaderState, fs: seq<Frame>, j: nat, p: nat, room: nat, n: nat, period: nat)
    returns (j': nat, p': nat)
    requires At(fs, j, p) && Sound(fs, n, period) && ReaderAt(r, fs, j, p, n)
    requires r.block.capacity >= n * (period + 1)
    ensures var (kind, bytes, rest) := Take(Rest(fs, j, p), room);
            && At(fs, j', p') && rest == Rest(fs, j', p')
            && (kind == Sample ==> Safe(Load(r), bytes))
            && var r' := Decode(r, bytes, kind).0;
               && ReaderAt(r', fs, j', p', n) && r'.block.capacity == r.block.capacity
               && (!r.block.ready ==> Announced(fs[..j']) == Announced(fs[..j]) + Offer(r'))
  {
    hide Announced, ReaderAt, After, Chained, Load, Feed, Safe, Flatten, Sound, FrameItems, Decode, Rest, Lead, Offer;
    var items := Rest(fs, j, p);
    MulOrder(n, 0, period);
    if items != [] && items[0].Record? {
      FramesNonEmpty(fs, n, period);
      HeadIsCode(fs, j, p);
      RestAdvance(fs, j, p);
      RecordRead(r, fs, j, n, period);
      if |items[0].bytes| <= room {
        j', p' := j + 1, 0;
      } else {
        j', p' := CodesRead(r, fs, j, p, 0, n, period);
        DecodeNothing(r);
        EmptyRead(items);
      }
    } else {
      var k := if Lead(items) <= room then Lead(items) else room;
      j', p' := CodesRead(r, fs, j, p, k, n, period);
    }
  }

  lemma DecodeNothing(r: ReaderState)
    ensures Decode(r, [], Control) == Decode(r, [], Sample)
  {
  }

  lemma EmptyRead(items: seq<Item>)
    ensures items[0..] == items && items[..0] == [] && Flatten(items[..0]) == []
  {
  }
}
