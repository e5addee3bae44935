/** What the misread residuals do to the blocks: exactly which streams still arrive as sent. */
module CodecGap {
  import opened Words
  import opened ResidualCode
  import opened CodecQueue
  import opened CodecDecoder
  import opened CodecFrames
  import opened CodecLink

  // ---------- Residuals ----------

  function Times120(k: nat): (s: seq<i16>)
    ensures |s| == k && forall i | 0 <= i < k :: s[i] == 120
  {
    seq(k, _ => 120)
  }

  predicate Only120(ds: seq<i16>) {
    forall i | 0 <= i < |ds| :: ds[i] == 120
  }

  /** Number of values 120 at the end. */
  function Trail(ds: seq<i16>): (m: nat)
    ensures m <= |ds|
  {
    if Only120(ds) then |ds| else Trail(ds[1..])
  }

  /** No misread residual but values 120 at the end. */
  predicate CleanUpToTrail(ds: seq<i16>) {
    Only120(ds) || (!InGap(ds[0]) && CleanUpToTrail(ds[1..]))
  }

  function Decoded(ds: seq<i16>): seq<i16> { DecodeAll(AtCode, EncodeAll(ds)).1 }

  lemma DecodedHead(d: i16, ds: seq<i16>)
    ensures !InGap(d) ==> Decoded([d] + ds) == [d] + Decoded(ds)
    ensures d == 120 ==> Decoded([d] + ds) == [120, 120] + Decoded(ds)
    ensures InGap(d) ==> Decoded([d] + ds) != [] && Decoded([d] + ds)[0] == 120
  {
    assert ([d] + ds)[1..] == ds;
    if InGap(d) { GapDecodes(d, EncodeAll(ds)); } else { DecodeOne(d, EncodeAll(ds), true); }
  }

  /** A decoder that is ahead by values 120 agrees with what was sent only on values 120, and gets further ahead. */
  lemma {:induction false} AheadIff(ahead: nat, ds: seq<i16>)
    requires ahead > 0
    ensures ds <= Times120(ahead) + Decoded(ds) <==> Only120(ds)
    ensures Only120(ds) ==> Decoded(ds) == Times120(2 * |ds|)
    decreases |ds|
  {
    if ds != [] {
      hide Decoded, InGap;
      var d, rest := ds[0], ds[1..];
      assert ds == [d] + rest;
      if d == 120 {
        AheadIff(ahead + 1, rest);
        DecodedHead(120, rest);
        ConsPrefix(120, rest, Times120(ahead) + Decoded(ds));
        assert (Times120(ahead) + Decoded(ds))[1..] == Times120(ahead + 1) + Decoded(rest);
      } else {
        assert (Times120(ahead) + Decoded(ds))[0] == 120;
      }
    }
  }

  lemma ConsPrefix(d: i16, rest: seq<i16>, out: seq<i16>)
    ensures [d] + rest <= out <==> out != [] && out[0] == d && rest <= out[1..]
  {
  }

  lemma TrailHead(d: i16, ds: seq<i16>)
    ensures Only120([d] + ds) <==> d == 120 && Only120(ds)
    ensures Trail([d] + ds) == if d == 120 && Only120(ds) then |ds| + 1 else Trail(ds)
    ensures CleanUpToTrail([d] + ds) <==> if InGap(d) then d == 120 && Only120(ds) else CleanUpToTrail(ds)
  {
    var all := [d] + ds;
    assert all[1..] == ds && all[0] == d && forall i | 0 <= i < |ds| :: all[i + 1] == ds[i];
  }

  /** What is decoded starts with what was sent exactly when only values 120 at the end were misread, each as two. */
  lemma {:induction false} AgreesIff(ds: seq<i16>)
    ensures ds <= Decoded(ds) <==> CleanUpToTrail(ds)
    ensures CleanUpToTrail(ds) ==> Decoded(ds) == ds + Times120(Trail(ds))
  {
    if ds != [] {
      hide Decoded, CleanUpToTrail, Trail, Only120;
      var d, rest := ds[0], ds[1..];
      assert ds == [d] + rest;
      DecodedHead(d, rest);
      TrailHead(d, rest);
      ConsPrefix(d, rest, Decoded(ds));
      if InGap(d) {
        AheadIff(1, rest);
        AheadTail(d, ds, rest);
      } else {
        AgreesIff(rest);
      }
    } else {
      assert CleanUpToTrail([]) && Decoded([]) == [];
    }
  }

  lemma AheadTail(d: i16, ds: seq<i16>, rest: seq<i16>)
    requires ds == [d] + rest && d == 120 ==> Decoded(ds) == [120, 120] + Decoded(rest)
    requires Only120(rest) ==> Decoded(rest) == Times120(2 * |rest|)
    ensures d == 120 && ds == [d] + rest ==> Decoded(ds)[1..] == Times120(1) + Decoded(rest)
    ensures d == 120 && ds == [d] + rest && Only120(rest) ==> Decoded(ds) == ds + Times120(|rest| + 1)
  {
    hide Decoded;
  }

  // ---------- One block ----------

  /** The samples that residuals rebuild, vector by vector; residuals short of a vector rebuild nothing. */
  function Rebuild(cs: seq<Channel>, xs: seq<i16>): seq<i16>
    decreases |xs|
  {
    if cs == [] || |xs| < |cs| then []
    else
      var next := FollowAll(cs, xs[..|cs|]);
      SamplesOf(next) + Rebuild(next, xs[|cs|..])
  }

  /** The residuals short of a vector. */
  function Leftover(xs: seq<i16>, n: nat): seq<i16>
    decreases |xs|
  {
    if n == 0 || |xs| < n then xs else Leftover(xs[n..], n)
  }

  /** A sequence made of vectors of `n` values. */
  predicate Vectored(xs: seq<i16>, n: nat)
    decreases |xs|
  {
    xs == [] || (n > 0 && |xs| >= n && Vectored(xs[n..], n))
  }

  /** The reader after completed residuals, taken one at a time. */
  function Absorb(r: ReaderState, xs: seq<i16>): ReaderState
    decreases |xs|
  {
    if xs == [] then r else Absorb(Emit(r.(dods := r.dods + [xs[0]])), xs[1..])
  }

  lemma RebuildShort(cs: seq<Channel>, xs: seq<i16>)
    requires |xs| < |cs|
    ensures Rebuild(cs, xs) == [] && Leftover(xs, |cs|) == xs
  {
  }

  lemma RebuildHead(cs: seq<Channel>, v: seq<i16>, xs: seq<i16>)
    requires |v| == |cs| > 0
    ensures Rebuild(cs, v + xs) == SamplesOf(FollowAll(cs, v)) + Rebuild(FollowAll(cs, v), xs)
    ensures Leftover(v + xs, |cs|) == Leftover(xs, |cs|)
  {
    assert (v + xs)[..|v|] == v && (v + xs)[|v|..] == xs;
  }

  /** Residuals beyond a vector stay in the buffer once the block is full. */
  lemma {:induction false} FullStays(r: ReaderState, xs: seq<i16>)
    requires |r.dods| >= |r.channels| && r.block.capacity - |r.block.samples| < |r.channels|
    ensures var r' := Absorb(r, xs); r' == r.(dods := r.dods + xs)
    decreases |xs|
  {
    if xs == [] {
      assert r.dods + [] == r.dods;
    } else {
      FullStays(r.(dods := r.dods + [xs[0]]), xs[1..]);
      assert r.dods + [xs[0]] + xs[1..] == r.dods + xs;
    }
  }

  /**
   * Into a block with room for the vectors `ds`: either what the residuals rebuild is all there and less than a vector
   * is over, or more than a vector more than `ds` came in.
   */
  lemma {:induction false} AbsorbRebuilds(r: ReaderState, xs: seq<i16>, ds: seq<i16>)
    requires |r.dods| < |r.channels| && Vectored(ds, |r.channels|)
    requires r.block.capacity - |r.block.samples| >= |ds|
    ensures var r', all := Absorb(r, xs), r.dods + xs;
            && |r'.channels| == |r.channels| && r'.inSync == r.inSync && r'.mode == r.mode
            && r'.block.counter == r.block.counter && r'.block.capacity == r.block.capacity
            && (if |r'.dods| < |r.channels| then
                  && r'.block.samples == r.block.samples + Rebuild(r.channels, all)
                  && r'.dods == Leftover(all, |r.channels|)
                else |all| >= |ds| + |r.channels|)
    decreases |xs|
  {
    hide FollowAll, SamplesOf, Rebuild, Leftover;
    var n, all := |r.channels|, r.dods + xs;
    VectoredSize(ds, n);
    if xs == [] {
      RebuildShort(r.channels, r.dods);
      assert all == r.dods && r.block.samples + [] == r.block.samples;
    } else {
      var filled := r.(dods := r.dods + [xs[0]]);
      assert filled.dods + xs[1..] == all;
      if |filled.dods| < n {
        AbsorbRebuilds(filled, xs[1..], ds);
      } else if r.block.capacity - |r.block.samples| < n {
        FullStays(filled, xs[1..]);
      } else {
        var now, next := SamplesOf(FollowAll(r.channels, filled.dods)), if ds == [] then [] else ds[n..];
        AbsorbRebuilds(Emit(filled), xs[1..], next);
        RebuildHead(r.channels, filled.dods, xs[1..]);
        assert [] + xs[1..] == xs[1..];
        ConcatAssoc(r.block.samples, now, Rebuild(FollowAll(r.channels, filled.dods), xs[1..]));
      }
    }
  }

  /** No complete vector waits for room that is there. */
  predicate Settled(r: ReaderState) {
    |r.dods| == |r.channels| ==> r.block.capacity - |r.block.samples| < |r.channels|
  }

  lemma {:induction false} FeedAbsorbs(r: ReaderState, bytes: seq<u8>)
    requires r.mode.Decoding? && r.channels != [] && Settled(r)
    ensures var (end, xs) := DecodeAll(r.mode.phase, bytes);
            Feed(r, bytes) == Absorb(r.(mode := Decoding(end)), xs)
    decreases |bytes|
  {
    if bytes != [] {
      var (q, now) := Step(r.mode.phase, bytes[0]);
      var (end, xs) := DecodeAll(r.mode.phase, bytes);
      FeedAbsorbs(FeedByte(r, bytes[0]), bytes[1..]);
      var later := DecodeAll(q, bytes[1..]).1;
      assert xs == now + later;
      if now == [] {
        assert xs == later && r.dods + [] == r.dods;
      } else {
        assert now == [xs[0]] && xs[1..] == later;
      }
    }
  }

  lemma FollowInjective(c: Channel, a: i16, b: i16)
    requires Follow(c, a).sample == Follow(c, b).sample
    ensures a == b
  {
    hide ToI16;
    WrapInjective(ToI16(a + c.delta), ToI16(b + c.delta), c.sample);
    WrapInjective(a, b, c.delta);
  }

  lemma WrapInjective(a: i16, b: i16, c: i16)
    requires ToI16(a + c) == ToI16(b + c)
    ensures a == b
  {
  }

  lemma FollowAllInjective(cs: seq<Channel>, a: seq<i16>, b: seq<i16>)
    requires |a| == |b| == |cs|
    ensures SamplesOf(FollowAll(cs, a)) == SamplesOf(FollowAll(cs, b)) <==> a == b
  {
    hide Follow;
    var x, y := SamplesOf(FollowAll(cs, a)), SamplesOf(FollowAll(cs, b));
    if x == y {
      forall i | 0 <= i < |cs|
        ensures a[i] == b[i]
      {
        assert x[i] == Follow(cs[i], a[i]).sample && y[i] == Follow(cs[i], b[i]).sample;
        FollowInjective(cs[i], a[i], b[i]);
      }
    }
  }

  /** Two residual streams rebuild the same samples exactly when one is the other, short of another vector. */
  lemma {:induction false} RebuildIff(cs: seq<Channel>, ds: seq<i16>, xs: seq<i16>)
    requires cs != [] && Vectored(ds, |cs|)
    ensures Rebuild(cs, xs) == Rebuild(cs, ds) <==> ds <= xs && |xs| < |ds| + |cs|
    ensures ds <= xs && |xs| < |ds| + |cs| ==> Leftover(xs, |cs|) == xs[|ds|..]
    decreases |ds|
  {
    var n := |cs|;
    if ds != [] && |xs| >= n {
      var a, b := FollowAll(cs, xs[..n]), FollowAll(cs, ds[..n]);
      FollowAllInjective(cs, xs[..n], ds[..n]);
      SplitEqual(SamplesOf(a), Rebuild(a, xs[n..]), SamplesOf(b), Rebuild(b, ds[n..]));
      SplitPrefix(ds, xs, n);
      if xs[..n] == ds[..n] {
        RebuildIff(a, ds[n..], xs[n..]);
        if ds <= xs { assert xs[n..][|ds| - n..] == xs[|ds|..]; }
      }
    }
  }

  lemma SplitEqual<T>(a: seq<T>, x: seq<T>, b: seq<T>, y: seq<T>)
    requires |a| == |b|
    ensures a + x == b + y <==> a == b && x == y
  {
    if a + x == b + y {
      assert a == (a + x)[..|a|] && b == (b + y)[..|a|];
      assert x == (a + x)[|a|..] && y == (b + y)[|a|..];
    }
  }

  lemma SplitPrefix<T>(a: seq<T>, b: seq<T>, n: nat)
    requires n <= |a| && n <= |b|
    ensures a <= b <==> a[..n] == b[..n] && a[n..] <= b[n..]
  {
    if a[..n] == b[..n] && a[n..] <= b[n..] {
      assert a == a[..n] + a[n..] && b == b[..n] + b[n..];
    }
  }

  lemma VectoredSize(xs: seq<i16>, n: nat)
    requires Vectored(xs, n)
    ensures xs == [] || |xs| >= n
  {
  }

  /** The block has exactly the samples of the residuals `ds` more, and less than a vector of residuals is over. */
  predicate Added(r: ReaderState, r': ReaderState, ds: seq<i16>) {
    r'.block.samples == r.block.samples + Rebuild(r.channels, ds) && |r'.dods| < |r.channels|
  }

  /**
   * The codes of one group, read with `left` residuals 120 over from the group in front into a block with room for its
   * vectors: they come out as sent exactly if nothing is over, and nothing is misread but fewer than a vector of values
   * 120 at the end. These are then over for the next group.
   */
  lemma BlockIntactIff(r: ReaderState, left: nat, ds: seq<i16>)
    requires r.mode == Decoding(AtCode) && r.dods == Times120(left) && left < |r.channels| && Vectored(ds, |r.channels|)
    requires r.block.capacity - |r.block.samples| >= |ds|
    ensures var r' := Feed(r, EncodeAll(ds));
            && r'.mode.Decoding? && |r'.channels| == |r.channels|
            && r'.block.counter == r.block.counter && r'.block.capacity == r.block.capacity
            && (Added(r, r', ds) <==> if left > 0 then ds == [] else CleanUpToTrail(ds) && Trail(ds) < |r.channels|)
            && (Added(r, r', ds) ==> r'.dods == Times120(if left > 0 then left else Trail(ds)))
  {
    hide Rebuild, Leftover, Feed, Absorb, EncodeAll, DecodeAll, CleanUpToTrail, Vectored, Emit;
    var all := Times120(left) + Decoded(ds);
    FeedAbsorbs(r, EncodeAll(ds));
    AbsorbRebuilds(r.(mode := Decoding(DecodeAll(AtCode, EncodeAll(ds)).0)), Decoded(ds), ds);
    SplitEqual(r.block.samples, Rebuild(r.channels, all), r.block.samples, Rebuild(r.channels, ds));
    RebuildIff(r.channels, ds, all);
    if left > 0 {
      AheadIff(left, ds);
      VectoredSize(ds, |r.channels|);
      if Only120(ds) { assert all[|ds|..] == Times120(left + |ds|); }
    } else {
      assert all == Decoded(ds);
      AgreesIff(ds);
      if CleanUpToTrail(ds) { assert all[|ds|..] == Times120(Trail(ds)); }
    }
  }

  // ---------- Streams of blocks ----------

  /** A resync record and the residuals of the vectors behind it. */
  datatype Sent = Sent(counter: u32, start: seq<Channel>, residuals: seq<i16>)

  /** The reader after a group, with the resync applied as the next piece would apply it. */
  function Receive(r: ReaderState, g: Sent): ReaderState {
    Load(Decode(Decode(r, ResyncBytes(g.counter, g.start), Control).0, EncodeAll(g.residuals), Sample).0)
  }

  /** The block holds what was sent, and the residual buffer of one vector is not full. */
  predicate Intact(r: ReaderState, g: Sent) {
    && r.block.counter == g.counter && r.block.samples == SamplesOf(g.start) + Rebuild(g.start, g.residuals)
    && |r.dods| < |r.channels|
  }

  predicate AllIntact(r: ReaderState, gs: seq<Sent>)
    decreases |gs|
  {
    gs == [] || (Intact(Receive(r, gs[0]), gs[0]) && AllIntact(Receive(r, gs[0]), gs[1..]))
  }

  /** Whole vectors, and a block that can hold them. */
  predicate Fits(g: Sent, n: nat, capacity: nat) {
    |g.start| == n && Vectored(g.residuals, n) && capacity >= n + |g.residuals|
  }

  /** The streams that survive the misread residuals, `left` of which are over from the group in front. */
  predicate Survives(left: nat, gs: seq<Sent>, n: nat)
    decreases |gs|
  {
    gs == [] ||
    if left > 0 then gs[0].residuals == [] && Survives(left, gs[1..], n)
    else CleanUpToTrail(gs[0].residuals) && Trail(gs[0].residuals) < n && Survives(Trail(gs[0].residuals), gs[1..], n)
  }

  /** A resync replaces channels and block but not the residuals that are over. */
  lemma ResyncLoads(r: ReaderState, g: Sent, n: nat)
    requires 1 <= n <= 14 && r.mode.Decoding? && |r.channels| == n && |g.start| == n && r.block.capacity >= n
    ensures var loaded := Load(Decode(r, ResyncBytes(g.counter, g.start), Control).0);
            && loaded == ReaderState(true, Decoding(AtCode), r.dods, g.start,
                                     Block(false, g.counter, SamplesOf(g.start), r.block.capacity))
            && Receive(r, g) == Load(Feed(loaded, EncodeAll(g.residuals)))
  {
    ResyncRoundTrip(g.counter, g.start);
    hide ReadChannels, ReadCounter, EncodeAll, CounterBytes, ChannelBytes;
  }

  lemma LoadDecoding(r: ReaderState)
    requires r.mode.Decoding?
    ensures Load(r) == r
  {
  }

  lemma {:induction false} FeedJoin(r: ReaderState, a: seq<u8>, b: seq<u8>)
    ensures Feed(r, a + b) == Feed(Feed(r, a), b)
    ensures r.mode.Decoding? ==> Feed(r, a).mode.Decoding?
    ensures Feed(r, a).inSync == r.inSync
    decreases |a|
  {
    if a == [] {
      assert a + b == b;
    } else {
      assert (a + b)[1..] == a[1..] + b;
      FeedJoin(FeedByte(r, a[0]), a[1..], b);
    }
  }

  /** How the codes of a group are cut into pieces makes no difference. */
  lemma PiecesJoin(r: ReaderState, a: seq<u8>, b: seq<u8>)
    requires Load(r).mode.Decoding?
    ensures Decode(Decode(r, a, Sample).0, b, Sample).0 == Decode(r, a + b, Sample).0
  {
    FeedJoin(Load(r), a, b);
    hide Feed;
    assert [] + b == b && a + [] == a;
  }

  /** Exactly these streams arrive as sent; a group whose last residual is 120 is right and spoils the next one. */
  lemma {:induction false} StreamIntactIff(r: ReaderState, left: nat, gs: seq<Sent>, n: nat)
    requires 1 <= n <= 14 && r.mode.Decoding? && |r.channels| == n && r.dods == Times120(left) && left < n
    requires forall g | g in gs :: Fits(g, n, r.block.capacity)
    ensures AllIntact(r, gs) <==> Survives(left, gs, n)
    decreases |gs|
  {
    if gs != [] {
      hide Receive, Feed, Load, Decode, Rebuild, Vectored, CleanUpToTrail, EncodeAll, ResyncBytes;
      var g := gs[0];
      assert Fits(g, n, r.block.capacity);
      ResyncLoads(r, g, n);
      var loaded := Load(Decode(r, ResyncBytes(g.counter, g.start), Control).0);
      BlockIntactIff(loaded, left, g.residuals);
      var r' := Feed(loaded, EncodeAll(g.residuals));
      LoadDecoding(r');
      if Intact(r', g) {
        StreamIntactIff(r', if left > 0 then left else Trail(g.residuals), gs[1..], n);
      }
    }
  }

  // ---------- What a group of a history sends ----------

  function FrameDods(f: Frame): seq<i16> { if f.Delta? then f.dods else [] }

  function Dods(fs: seq<Frame>): seq<i16> {
    if fs == [] then [] else Dods(Front(fs)) + FrameDods(Last(fs))
  }

  /** The channels after residuals; those short of a vector have no effect. */
  function EndState(cs: seq<Channel>, xs: seq<i16>): (end: seq<Channel>)
    ensures |end| == |cs|
    decreases |xs|
  {
    if cs == [] || |xs| < |cs| then cs else EndState(FollowAll(cs, xs[..|cs|]), xs[|cs|..])
  }

  lemma {:induction false} RebuildSnoc(cs: seq<Channel>, xs: seq<i16>, d: seq<i16>)
    requires Vectored(xs, |cs|) && |d| == |cs| > 0
    ensures Vectored(xs + d, |cs|) && EndState(cs, xs + d) == FollowAll(EndState(cs, xs), d)
    ensures Rebuild(cs, xs + d) == Rebuild(cs, xs) + SamplesOf(FollowAll(EndState(cs, xs), d))
    decreases |xs|
  {
    var n, all := |cs|, xs + d;
    if xs == [] {
      assert all == d && d[..n] == d && d[n..] == [];
      assert SamplesOf(FollowAll(cs, d)) + [] == SamplesOf(FollowAll(cs, d)) == [] + SamplesOf(FollowAll(cs, d));
    } else {
      var next := FollowAll(cs, xs[..n]);
      RebuildSnoc(next, xs[n..], d);
      assert all[..n] == xs[..n] && all[n..] == xs[n..] + d;
      ConcatAssoc(SamplesOf(next), Rebuild(next, xs[n..]), SamplesOf(FollowAll(EndState(cs, xs), d)));
    }
  }

  /** The vectors of a group are what its resync record and its residuals rebuild. */
  lemma {:induction false} GroupRebuilds(fs: seq<Frame>, n: nat, period: nat) returns (a: nat)
    requires Chained(fs, n, period) && After(fs).Group? && n > 0
    ensures a < |fs| && fs[a].Resync? && fs[a].counter == After(fs).counter && |fs[a].start| == n
    ensures forall k | a < k < |fs| :: !fs[k].Resync?
    ensures var residuals := Dods(fs[a..]);
            && Vectored(residuals, n) && After(fs).channels == EndState(fs[a].start, residuals)
            && Flat(After(fs).vectors) == SamplesOf(fs[a].start) + Rebuild(fs[a].start, residuals)
  {
    hide Rebuild, EndState, Vectored, Flat, Vectors, Chained, Follows, After, Dods;
    GroupUnfold(fs, n, period);
    var last, before := Last(fs), After(Front(fs));
    if last.Resync? {
      a := |fs| - 1;
      assert fs[a..] == [last];
      OneResync(last, n);
    } else {
      a := GroupRebuilds(Front(fs), n, period);
      assert forall k | a <= k < |fs| - 1 :: fs[k] == Front(fs)[k];
      DodsFrom(fs, a);
      var start, residuals := fs[a].start, Dods(Front(fs)[a..]);
      if last.Delta? {
        RebuildSnoc(start, residuals, last.dods);
        FlatSnoc(before.vectors, last.vector);
        ConcatAssoc(SamplesOf(start), Rebuild(start, residuals), last.vector);
      } else {
        assert residuals + [] == residuals;
      }
    }
  }

  lemma OneResync(f: Frame, n: nat)
    requires f.Resync? && |f.start| == n
    ensures Dods([f]) == [] && Vectored([], n) && EndState(f.start, []) == f.start
    ensures Flat([SamplesOf(f.start)]) == SamplesOf(f.start) + Rebuild(f.start, [])
  {
    assert Front([f]) == [] && Dods([]) == [];
    FlatOne(SamplesOf(f.start));
    assert SamplesOf(f.start) + [] == SamplesOf(f.start);
  }

  lemma DodsFrom(fs: seq<Frame>, a: nat)
    requires a < |fs|
    ensures Dods(fs[a..]) == Dods(Front(fs)[a..]) + FrameDods(Last(fs))
  {
    assert Front(fs[a..]) == Front(fs)[a..] && Last(fs[a..]) == Last(fs);
  }

  /** The last step of a history that has a group. */
  lemma GroupUnfold(fs: seq<Frame>, n: nat, period: nat)
    requires Chained(fs, n, period) && After(fs).Group?
    ensures fs != [] && Chained(Front(fs), n, period) && After(fs) == AfterFrame(After(Front(fs)), Last(fs))
    ensures Last(fs).Resync? ==> |Last(fs).start| == n
    ensures Last(fs).Delta? ==>
              var g := After(Front(fs));
              && g.Group? && |g.channels| == n && |Last(fs).dods| == n
              && Last(fs).vector == SamplesOf(FollowAll(g.channels, Last(fs).dods))
  {
  }
}
