/** The history of a sample stream as frames, and the blocks of vectors the frames delimit. */
module CodecFrames {
  import opened Words
  import opened ResidualCode
  import opened CodecQueue
  import opened CodecDecoder

  type Vector = seq<i16>

  /**
   * One accepted `pushSample` or `flush`: a vector sent as a resync record, a vector sent as residuals, a flush
   * record.
   */
  datatype Frame =
    | Resync(counter: u32, start: seq<Channel>)
    | Delta(vector: Vector, dods: seq<i16>)
    | FlushMark

  predicate Closing(f: Frame) { !f.Delta? }

  function FrameItems(f: Frame): seq<Item> {
    match f
    case Resync(counter, start) => [Record(ResyncBytes(counter, start))]
    case Delta(_, dods) => Codes(EncodeAll(dods))
    case FlushMark => [Record([FLUSH])]
  }

  function Expand(fs: seq<Frame>): seq<Item> {
    if fs == [] then [] else FrameItems(fs[0]) + Expand(fs[1..])
  }

  function Front(fs: seq<Frame>): seq<Frame>
    requires fs != []
  {
    fs[..|fs| - 1]
  }

  function Last<T>(s: seq<T>): T
    requires s != []
  {
    s[|s| - 1]
  }

  function Flat(vs: seq<Vector>): Vector {
    if vs == [] then [] else Flat(vs[..|vs| - 1]) + vs[|vs| - 1]
  }

  function VectorOf(f: Frame): seq<Vector> {
    match f
    case Resync(_, start) => [SamplesOf(start)]
    case Delta(vector, _) => [vector]
    case FlushMark => []
  }

  /** The vectors of a history, in order. */
  function Vectors(fs: seq<Frame>): seq<Vector> {
    if fs == [] then [] else Vectors(Front(fs)) + VectorOf(Last(fs))
  }

  // ---------- Groups ----------

  /** The vectors since the last resync, and the predictor state they lead to. */
  datatype Group = NoGroup | Group(counter: u32, vectors: seq<Vector>, channels: seq<Channel>)

  function AfterFrame(g: Group, f: Frame): Group {
    match f
    case Resync(counter, start) => Group(counter, [SamplesOf(start)], start)
    case Delta(vector, dods) =>
      if g.NoGroup? || |dods| != |g.channels| then g
      else Group(g.counter, g.vectors + [vector], FollowAll(g.channels, dods))
    case FlushMark => g
  }

  function After(fs: seq<Frame>): Group {
    if fs == [] then NoGroup else AfterFrame(After(Front(fs)), Last(fs))
  }

  /** Whether `f` may follow the history `fs` in a stream of `n` channels with the given sync period. */
  predicate Follows(fs: seq<Frame>, f: Frame, n: nat, period: nat) {
    match f
    case Resync(_, start) => |start| == n
    case Delta(vector, dods) =>
      var g := After(fs);
      && fs != [] && !Last(fs).FlushMark?
      && g.Group? && |g.channels| == n && |dods| == n
      && |g.vectors| <= period
      && vector == SamplesOf(FollowAll(g.channels, dods))
    case FlushMark => true
  }

  predicate Chained(fs: seq<Frame>, n: nat, period: nat) {
    fs == [] || (Chained(Front(fs), n, period) && Follows(Front(fs), Last(fs), n, period))
  }

  lemma {:induction false} ChainedPrefix(fs: seq<Frame>, j: nat, n: nat, period: nat)
    requires Chained(fs, n, period) && j <= |fs|
    ensures Chained(fs[..j], n, period)
    ensures j < |fs| ==> Follows(fs[..j], fs[j], n, period) && After(fs[..j + 1]) == AfterFrame(After(fs[..j]), fs[j])
    decreases |fs|
  {
    if j == |fs| {
      assert fs[..j] == fs;
    } else {
      assert fs[..j + 1][..j] == fs[..j];
      if j + 1 == |fs| {
        assert fs[..j + 1] == fs && Front(fs) == fs[..j];
      } else {
        assert Front(fs)[..j] == fs[..j] && Front(fs)[j] == fs[j];
        assert Front(fs)[..j + 1] == fs[..j + 1];
      }
      ChainedPrefix(Front(fs), j, n, period);
    }
  }

  lemma {:induction false} GroupShape(fs: seq<Frame>, n: nat, period: nat)
    requires Chained(fs, n, period)
    ensures var g := After(fs);
            g.Group? ==> |g.channels| == n && 1 <= |g.vectors| <= period + 1 && forall v | v in g.vectors :: |v| == n
  {
    if fs != [] {
      GroupShape(Front(fs), n, period);
    }
  }

  lemma MulSucc(n: nat, k: nat)
    ensures n * (k + 1) == n * k + n
  {
  }

  lemma {:induction false} FlatLength(vs: seq<Vector>, n: nat)
    requires forall v | v in vs :: |v| == n
    ensures |Flat(vs)| == n * |vs|
  {
    if vs != [] {
      FlatLength(vs[..|vs| - 1], n);
      MulSucc(n, |vs| - 1);
    }
  }

  /** A group is what the frames since the last resync carry, and nothing else. */
  lemma {:induction false} GroupSpan(fs: seq<Frame>, n: nat, period: nat) returns (a: nat)
    requires Chained(fs, n, period) && After(fs).Group?
    ensures a < |fs| && fs[a].Resync? && fs[a].counter == After(fs).counter
    ensures forall k | a < k < |fs| :: !fs[k].Resync?
    ensures After(fs).vectors == Vectors(fs[a..])
  {
    hide Vectors, Chained, Follows;
    GroupNotEmpty(fs, n, period);
    var front, last := Front(fs), Last(fs);
    if last.Resync? {
      a := |fs| - 1;
      assert fs[a..] == [last];
      VectorsOne(last);
    } else {
      a := GroupSpan(front, n, period);
      VectorsLast(fs, a);
      assert forall k | a < k < |front| :: front[k] == fs[k];
    }
  }

  /** A frame that is no resync carries on the group in front of it. */
  lemma GroupNotEmpty(fs: seq<Frame>, n: nat, period: nat)
    requires Chained(fs, n, period) && After(fs).Group?
    ensures fs != [] && Chained(Front(fs), n, period)
    ensures !Last(fs).Resync? ==>
              && After(Front(fs)).Group? && After(fs).counter == After(Front(fs)).counter
              && After(fs).vectors == After(Front(fs)).vectors + VectorOf(Last(fs))
  {
    if fs != [] && Last(fs).FlushMark? {
      assert After(Front(fs)).Group? ==> After(fs).vectors + [] == After(Front(fs)).vectors;
    }
  }

  lemma VectorsOne(f: Frame)
    ensures Vectors([f]) == VectorOf(f)
  {
    assert Front([f]) == [] && [] + VectorOf(f) == VectorOf(f);
  }

  lemma VectorsLast(fs: seq<Frame>, a: nat)
    requires fs != [] && a < |fs| - 1
    ensures Vectors(fs[a..]) == Vectors(Front(fs)[a..]) + VectorOf(Last(fs))
  {
    assert Front(fs[a..]) == Front(fs)[a..];
  }

  // ---------- What the reader announces ----------

  datatype Delivery = Delivery(counter: u32, samples: Vector)

  /** A resync or flush record announces the group in front of it. */
  function Announcement(g: Group, f: Frame): seq<Delivery> {
    if Closing(f) && g.Group? then [Delivery(g.counter, Flat(g.vectors))] else []
  }

  function Announced(fs: seq<Frame>): seq<Delivery> {
    if fs == [] then [] else Announced(Front(fs)) + Announcement(After(Front(fs)), Last(fs))
  }

  /** How the group, the announcements and the vectors grow by one frame. */
  lemma HistorySnoc(fs: seq<Frame>, f: Frame)
    ensures After(fs + [f]) == AfterFrame(After(fs), f)
    ensures Announced(fs + [f]) == Announced(fs) + Announcement(After(fs), f)
    ensures Vectors(fs + [f]) == Vectors(fs) + VectorOf(f)
  {
    assert Front(fs + [f]) == fs;
  }

  lemma AnnouncedPrefix(fs: seq<Frame>, j: nat)
    requires j < |fs|
    ensures Announced(fs[..j + 1]) == Announced(fs[..j]) + Announcement(After(fs[..j]), fs[j])
  {
    assert Front(fs[..j + 1]) == fs[..j];
  }

  /** Every announcement is one complete group: the frames from a resync up to a closing frame. */
  lemma {:induction false} AnnouncedIsGroup(fs: seq<Frame>, k: nat, n: nat, period: nat) returns (a: nat, i: nat)
    requires Chained(fs, n, period) && k < |Announced(fs)|
    ensures a < i < |fs| && fs[a].Resync? && Closing(fs[i])
    ensures forall m | a < m < i :: !fs[m].Resync?
    ensures Announced(fs)[k] == Delivery(fs[a].counter, Flat(Vectors(fs[a..i])))
    ensures k >= |Announced(Front(fs))| ==> i == |fs| - 1
  {
    hide After, Announced, Vectors, Flat, Follows;
    AnnouncedUnfold(fs, n, period);
    var before := Front(fs);
    if k < |Announced(before)| {
      a, i := AnnouncedIsGroup(before, k, n, period);
      assert before[a..i] == fs[a..i];
    } else {
      a := GroupSpan(before, n, period);
      i := |fs| - 1;
      assert before[a..] == fs[a..i];
    }
  }

  lemma AnnouncedUnfold(fs: seq<Frame>, n: nat, period: nat)
    requires Announced(fs) != [] && Chained(fs, n, period)
    ensures fs != [] && Chained(Front(fs), n, period)
    ensures Announced(fs) == Announced(Front(fs)) + Announcement(After(Front(fs)), Last(fs))
    ensures forall m | 0 <= m < |fs| - 1 :: Front(fs)[m] == fs[m]
  {
  }

  lemma {:induction false} AnnouncedHasGroup(fs: seq<Frame>)
    requires Announced(fs) != []
    ensures After(fs).Group?
  {
    if Announced(Front(fs)) != [] { AnnouncedHasGroup(Front(fs)); }
  }

  /** Once something has been announced, every closing frame announces. */
  lemma ClosingAnnounces(fs: seq<Frame>)
    requires fs != [] && Closing(Last(fs)) && Announced(fs) != []
    ensures |Announced(fs)| == |Announced(Front(fs))| + 1
  {
    if Announced(Front(fs)) != [] { AnnouncedHasGroup(Front(fs)); }
  }

  // ---------- When the announcements add up to the accepted samples ----------

  function Samples(ds: seq<Delivery>): Vector {
    if ds == [] then [] else Samples(ds[..|ds| - 1]) + ds[|ds| - 1].samples
  }

  function Open(fs: seq<Frame>): Vector {
    var g := After(fs);
    if g.Group? then Flat(g.vectors) else []
  }

  /** No flush record before the end found a group to announce. */
  predicate NoEarlyFlush(fs: seq<Frame>) {
    fs == [] || (NoEarlyFlush(Front(fs)) && (Last(fs).FlushMark? ==> After(Front(fs)).NoGroup?))
  }

  lemma SamplesSnoc(ds: seq<Delivery>, d: Delivery)
    ensures Samples(ds + [d]) == Samples(ds) + d.samples
  {
    assert (ds + [d])[..|ds|] == ds;
  }

  lemma FlatSnoc(vs: seq<Vector>, v: Vector)
    ensures Flat(vs + [v]) == Flat(vs) + v
  {
    assert (vs + [v])[..|vs|] == vs;
  }

  lemma FlatOne(v: Vector)
    ensures Flat([v]) == v
  {
    assert [v][..0] == [] && [] + v == v;
  }

  /** How one more frame changes the announced samples, the open group and all samples. */
  lemma BalanceStep(fs: seq<Frame>)
    requires fs != []
    ensures var out := Samples(Announced(Front(fs)));
            Samples(Announced(fs)) == if Closing(Last(fs)) then out + Open(Front(fs)) else out
    ensures var all, f := Flat(Vectors(Front(fs))), Last(fs);
            && (f.Resync? ==> Flat(Vectors(fs)) == all + SamplesOf(f.start))
            && (f.Delta? ==> Flat(Vectors(fs)) == all + f.vector)
            && (f.FlushMark? ==> Flat(Vectors(fs)) == all)
  {
    hide After, Announced, Vectors, Flat, Samples;
    var before, f := Front(fs), Last(fs);
    var g := After(before);
    assert fs == before + [f];
    HistorySnoc(before, f);
    assert Vectors(before) + [] == Vectors(before) && Announced(before) + [] == Announced(before);
    assert Samples(Announced(before)) + [] == Samples(Announced(before));
    assert Flat(Vectors(before)) + [] == Flat(Vectors(before));
    if Closing(f) && g.Group? { SamplesSnoc(Announced(before), Delivery(g.counter, Flat(g.vectors))); }
    match f
    case Resync(_, start) => FlatSnoc(Vectors(before), SamplesOf(start));
    case Delta(v, _) => FlatSnoc(Vectors(before), v);
    case FlushMark =>
  }

  lemma OpenStep(fs: seq<Frame>, n: nat, period: nat)
    requires fs != [] && Chained(fs, n, period)
    ensures Last(fs).Resync? ==> Open(fs) == SamplesOf(Last(fs).start)
    ensures Last(fs).Delta? ==> Open(fs) == Open(Front(fs)) + Last(fs).vector
    ensures Last(fs).FlushMark? ==> Open(fs) == Open(Front(fs))
  {
    var g := After(Front(fs));
    match Last(fs)
    case Resync(_, start) => FlatOne(SamplesOf(start));
    case Delta(v, _) => FlatSnoc(g.vectors, v);
    case FlushMark =>
  }

  lemma OpenSize(fs: seq<Frame>, n: nat, period: nat)
    requires Chained(fs, n, period) && n > 0
    ensures After(fs).Group? <==> |Open(fs)| > 0
  {
    GroupShape(fs, n, period);
    var g := After(fs);
    if g.Group? {
      FlatLength(g.vectors, n);
      Grows(n, |g.vectors|);
    }
  }

  /** Announced samples followed by the open group: all samples if no flush came early, strictly more otherwise. */
  lemma {:induction false} AnnouncedBalance(fs: seq<Frame>, n: nat, period: nat)
    requires Chained(fs, n, period) && n > 0
    ensures NoEarlyFlush(fs) ==> Samples(Announced(fs)) + Open(fs) == Flat(Vectors(fs))
    ensures !NoEarlyFlush(fs) ==> |Samples(Announced(fs))| + |Open(fs)| > |Flat(Vectors(fs))|
  {
    if fs != [] {
      hide After, Samples, Announced, Open, Flat, Vectors, Follows;
      var before, f := Front(fs), Last(fs);
      AnnouncedBalance(before, n, period);
      BalanceStep(fs);
      OpenStep(fs, n, period);
      OpenSize(before, n, period);
      var out, open := Samples(Announced(before)), Open(before);
      if f.Resync? {
        assert NoEarlyFlush(fs) <==> NoEarlyFlush(before);
      } else if f.Delta? {
        ConcatAssoc(out, open, f.vector);
        assert NoEarlyFlush(fs) <==> NoEarlyFlush(before);
      } else if open == [] {
        assert out + open == out;
      } else {
        assert !NoEarlyFlush(fs);
      }
    }
  }

  lemma Grows(n: nat, k: nat)
    requires n >= 1 && k >= 1
    ensures n * k >= 1
  {
  }

  /**
   * A stream closed by a flush is announced exactly when no earlier flush closed a group: the next record repeats it.
   */
  lemma FlushedStreamIff(fs: seq<Frame>, n: nat, period: nat)
    requires Chained(fs, n, period) && n > 0
    requires fs != [] && Last(fs).FlushMark? && After(fs).Group?
    ensures Samples(Announced(fs)) == Flat(Vectors(fs)) <==> NoEarlyFlush(Front(fs))
  {
    AnnouncedBalance(Front(fs), n, period);
    BalanceStep(fs);
    OpenSize(Front(fs), n, period);
  }
}
