/** Which pushes a block is made of: consecutive ones, so none in between was dropped. */
module CodecPushes {
  import opened Words
  import opened ResidualCode
  import opened CodecQueue
  import opened CodecDecoder
  import opened CodecFrames
  import opened CodecLink
  import opened CodecRun

  /** Accepted vector number `q` is the push at its place. */
  predicate PlaceAt(s: LinkState, q: nat)
    requires q < |s.places|
  {
    q < |s.accepted| && s.places[q] < |s.pushes| && s.pushes[s.places[q]] == s.accepted[q]
  }

  /**
   * With `q` vectors in front of it, a resync carries its push's counter, and residuals carry the push that follows.
   */
  predicate FrameAt(s: LinkState, f: Frame, q: nat) {
    match f
    case Resync(counter, _) =>
      q < |s.places| && s.places[q] < |s.counters| && s.counters[s.places[q]] == counter
    case Delta(_, _) => 0 < q < |s.places| && s.places[q] == s.places[q - 1] + 1
    case FlushMark => true
  }

  /** The history of frames is one of pushes, and a vector sent as residuals was pushed right after the one in front. */
  ghost predicate Steady(s: LinkState) {
    && s.accepted == Vectors(s.frames)
    && |s.places| == |s.accepted| && |s.counters| == |s.pushes|
    && (forall q | 0 <= q < |s.places| :: PlaceAt(s, q))
    && (forall k | 0 <= k < |s.frames| :: FrameAt(s, s.frames[k], |Vectors(s.frames[..k])|))
    && (s.w.backpressure ==> s.w.tillSync == 0)
    && (s.w.tillSync > 0 ==> s.places != [] && Last(s.places) == |s.pushes| - 1)
  }

  /** More pushes, or one more accepted vector, leave what is known of the frames so far. */
  lemma FrameStays(s: LinkState, s': LinkState, k: nat)
    requires Steady(s) && k < |s.frames|
    requires s.frames <= s'.frames && s.places <= s'.places && s.counters <= s'.counters
    ensures FrameAt(s', s'.frames[k], |Vectors(s'.frames[..k])|)
  {
    assert s'.frames[..k] == s.frames[..k] && s'.frames[k] == s.frames[k];
    assert FrameAt(s, s.frames[k], |Vectors(s.frames[..k])|);
    hide Vectors;
  }

  lemma PlaceStays(s: LinkState, s': LinkState, q: nat)
    requires q < |s.places| && PlaceAt(s, q)
    requires s.places <= s'.places && s.accepted <= s'.accepted && s.pushes <= s'.pushes
    ensures PlaceAt(s', q)
  {
  }

  /** What the writer records with an accepted vector: its frame, its place and, for a resync, its counter. */
  lemma FrameAdded(s: LinkState, s': LinkState, f: Frame)
    requires Steady(s)
    requires s'.frames == s.frames + [f] && s'.accepted == s.accepted + VectorOf(f)
    requires s.pushes <= s'.pushes && s.counters <= s'.counters && |s'.pushes| == |s'.counters|
    requires s.places <= s'.places && |s'.places| == |s'.accepted|
    requires forall q | |s.places| <= q < |s'.places| :: PlaceAt(s', q)
    requires FrameAt(s', f, |s.places|)
    requires s'.w.backpressure ==> s'.w.tillSync == 0
    requires s'.w.tillSync > 0 ==> s'.places != [] && Last(s'.places) == |s'.pushes| - 1
    ensures Steady(s')
  {
    hide PlaceAt, FrameAt, Vectors, VectorOf;
    HistorySnoc(s.frames, f);
    SnocShape(s.frames, f);
    forall k | 0 <= k < |s'.frames|
      ensures FrameAt(s', s'.frames[k], |Vectors(s'.frames[..k])|)
    {
      if k < |s.frames| { FrameStays(s, s', k); }
    }
    forall q | 0 <= q < |s'.places|
      ensures PlaceAt(s', q)
    {
      if q < |s.places| { PlaceStays(s, s', q); }
    }
  }

  /** Without a new frame the history of pushes only gets longer. */
  lemma NoFrameAdded(s: LinkState, s': LinkState)
    requires Steady(s)
    requires s'.frames == s.frames && s'.accepted == s.accepted && s'.places == s.places
    requires s.pushes <= s'.pushes && s.counters <= s'.counters && |s'.pushes| == |s'.counters|
    requires s'.w.backpressure ==> s'.w.tillSync == 0
    requires s'.w.tillSync > 0 ==> s.places != [] && Last(s.places) == |s'.pushes| - 1
    ensures Steady(s')
  {
    hide PlaceAt, FrameAt, Vectors;
    forall k | 0 <= k < |s.frames|
      ensures FrameAt(s', s'.frames[k], |Vectors(s'.frames[..k])|)
    {
      FrameStays(s, s', k);
    }
    forall q | 0 <= q < |s.places|
      ensures PlaceAt(s', q)
    {
      PlaceStays(s, s', q);
    }
  }

  /** A push records its vector, whatever the writer does with it. */
  lemma PushRecorded(cfg: Config, s: LinkState, samples: Vector, counter: u32)
    requires |samples| == |s.w.channels| && |s.pushes| == |s.counters|
    requires s.w.backpressure ==> s.w.tillSync == 0
    requires s.w.tillSync > 0 ==> s.places != [] && Last(s.places) == |s.pushes| - 1
    requires |s.places| == |s.accepted|
    ensures var s' := AfterPush(cfg, s, samples, counter);
            var new' := PushFrames(cfg, s.w, samples, counter);
            && s.pushes <= s'.pushes && s.counters <= s'.counters && |s'.pushes| == |s'.counters|
            && |s'.places| == |s'.accepted|
            && (s'.w.backpressure ==> s'.w.tillSync == 0)
            && (s'.w.tillSync > 0 ==> s'.places != [] && Last(s'.places) == |s'.pushes| - 1)
            && |new'| <= 1
            && (new' == [] ==> s'.frames == s.frames && s'.accepted == s.accepted && s'.places == s.places)
            && (new' != [] ==>
                  && s'.frames == s.frames + [new'[0]] && s'.accepted == s.accepted + VectorOf(new'[0])
                  && s'.places == s.places + [|s.pushes|]
                  && PlaceAt(s', |s.places|) && FrameAt(s', new'[0], |s.places|))
  {
    PredictedCarriesSamples(s.w.channels, samples);
    hide Residuals, Predicted, EncodeAll, Codes, Room, PutRecord, ResyncBytes, Records;
    assert s.frames + [] == s.frames && s.accepted + [] == s.accepted && s.places + [] == s.places;
  }

  lemma PushSteady(cfg: Config, s: LinkState, samples: Vector, counter: u32)
    requires Steady(s) && |samples| == |s.w.channels|
    ensures Steady(AfterPush(cfg, s, samples, counter))
  {
    hide PlaceAt, FrameAt, Vectors, VectorOf, AfterPush, PushFrames;
    PushRecorded(cfg, s, samples, counter);
    var s' := AfterPush(cfg, s, samples, counter);
    var new' := PushFrames(cfg, s.w, samples, counter);
    if new' == [] { NoFrameAdded(s, s'); } else { FrameAdded(s, s', new'[0]); }
  }

  lemma FlushSteady(cfg: Config, s: LinkState)
    requires Steady(s)
    ensures Steady(AfterFlush(cfg, s))
  {
    hide PlaceAt, Vectors, Room, PutRecord;
    var s' := AfterFlush(cfg, s);
    assert s.frames + [] == s.frames && s.accepted + VectorOf(FlushMark) == s.accepted;
    if s'.frames == s.frames { NoFrameAdded(s, s'); } else { FrameAdded(s, s', FlushMark); }
  }

  lemma PumpSteady(s: LinkState, room: nat)
    requires Steady(s)
    ensures Steady(AfterPump(s, room))
  {
    hide PlaceAt, FrameAt, Vectors, Take, Decode;
    NoFrameAdded(s, AfterPump(s, room));
  }

  lemma PollSteady(s: LinkState)
    requires Steady(s)
    ensures Steady(AfterPoll(s))
  {
    hide PlaceAt, FrameAt, Vectors;
    NoFrameAdded(s, AfterPoll(s));
  }

  /** The history of pushes stays sound in every run, admissible or not. */
  lemma {:induction false} RunSteady(cfg: Config, s: LinkState, events: seq<Event>)
    requires Steady(s)
    ensures Steady(Run(cfg, s, events))
    decreases |events|
  {
    hide Steady, AfterPush, AfterFlush, AfterPump, AfterPoll, Run, AdmissibleRun, Attentive;
    RunUnfold(cfg, s, events);
    if events != [] {
      match events[0] {
        case Push(samples, counter) => if |samples| == |s.w.channels| { PushSteady(cfg, s, samples, counter); }
        case RequestFlush => FlushSteady(cfg, s);
        case Pump(room) => PumpSteady(s, room);
        case Poll => PollSteady(s);
        case Transfer(room) =>
          PumpSteady(s, room);
          PollSteady(AfterPump(s, room));
      }
      RunSteady(cfg, Next(cfg, s, events[0]), events[1..]);
    }
  }

  // ---------- Groups ----------

  lemma VectorsUpTo(fs: seq<Frame>, i: nat)
    requires i < |fs|
    ensures Vectors(fs[..i + 1]) == Vectors(fs[..i]) + VectorOf(fs[i])
  {
    assert fs[..i + 1] == fs[..i] + [fs[i]];
    HistorySnoc(fs[..i], fs[i]);
  }

  lemma VectorsBetween(fs: seq<Frame>, a: nat, i: nat)
    requires a <= i < |fs|
    ensures Vectors(fs[a..i + 1]) == Vectors(fs[a..i]) + VectorOf(fs[i])
  {
    assert fs[a..i + 1] == fs[a..i] + [fs[i]];
    HistorySnoc(fs[a..i], fs[i]);
  }

  /** The vectors of the frames from a resync on, up to the next, were pushed one after the other. */
  lemma {:induction false} Consecutive(s: LinkState, a: nat, i: nat) returns (first: nat)
    requires Steady(s) && a < i <= |s.frames| && s.frames[a].Resync?
    requires forall m | a < m < i :: !s.frames[m].Resync?
    ensures var vectors := Vectors(s.frames[a..i]);
            && vectors != [] && first + |vectors| <= |s.pushes|
            && vectors == s.pushes[first..first + |vectors|]
            && s.counters[first] == s.frames[a].counter
    ensures var before := |Vectors(s.frames[..i])|;
            0 < before <= |s.places| && s.places[before - 1] == first + |Vectors(s.frames[a..i])| - 1
    decreases i
  {
    hide Vectors, PlaceAt, Steady;
    var before := Vectors(s.frames[..i - 1]);
    VectorsUpTo(s.frames, i - 1);
    VectorsBetween(s.frames, a, i - 1);
    SteadyAt(s, i - 1);
    if i == a + 1 {
      assert s.frames[a..a] == [];
      VectorsNone();
      first := s.places[|before|];
    } else {
      first := Consecutive(s, a, i - 1);
      SliceSnoc(s.pushes, first, first + |Vectors(s.frames[a..i - 1])|, |Vectors(s.frames[a..i - 1])|);
    }
  }

  lemma SliceSnoc<T>(xs: seq<T>, lo: nat, hi: nat, k: nat)
    requires hi == lo + k <= |xs|
    ensures hi < |xs| ==> xs[lo..lo + k] + [xs[hi]] == xs[lo..lo + (k + 1)]
  {
  }

  /** What the invariant says of one frame. */
  lemma SteadyAt(s: LinkState, k: nat)
    requires Steady(s) && k < |s.frames|
    ensures var q := |Vectors(s.frames[..k])|;
            && |s.counters| == |s.pushes| && q <= |s.places|
            && FrameAt(s, s.frames[k], q)
            && (!s.frames[k].FlushMark? ==>
                  q < |s.places| && s.places[q] < |s.pushes| && [s.pushes[s.places[q]]] == VectorOf(s.frames[k]))
  {
    hide Vectors;
    var q := |Vectors(s.frames[..k])|;
    VectorsUpTo(s.frames, k);
    VectorsPrefix(s.frames, k + 1);
    if !s.frames[k].FlushMark? { assert PlaceAt(s, q); }
  }

  lemma VectorsNone()
    ensures Vectors([]) == []
  {
  }

  lemma {:induction false} VectorsPrefix(fs: seq<Frame>, i: nat)
    requires i <= |fs|
    ensures Vectors(fs[..i]) <= Vectors(fs)
    decreases |fs| - i
  {
    if i == |fs| {
      assert fs[..i] == fs;
    } else {
      VectorsUpTo(fs, i);
      VectorsPrefix(fs, i + 1);
    }
  }

  /**
   * After any admissible run, a ready block holds pushes that came one after the other, none of which was dropped, and
   * bears the counter of the first.
   */
  lemma BlockIsConsecutive(cfg: Config, channels: seq<Channel>, readerChannels: seq<Channel>, capacity: nat,
                           events: seq<Event>)
    returns (first: nat, end: nat)
    requires 1 <= |channels| <= 14 && |readerChannels| == |channels| && capacity >= |channels| * (cfg.period + 1)
    requires AdmissibleRun(cfg, Fresh(channels, readerChannels, capacity), events)
    ensures var s := Run(cfg, Fresh(channels, readerChannels, capacity), events);
            |s.counters| == |s.pushes|
            && (s.r.block.ready ==>
                  && first < end <= |s.pushes|
                  && s.r.block.counter == s.counters[first] && s.r.block.samples == Flat(s.pushes[first..end]))
  {
    hide Steady, Run, AdmissibleRun, Vectors, Chained, Fresh, WholeGroup, At, Flat, Rest;
    first, end := 0, 0;
    var start := Fresh(channels, readerChannels, capacity);
    var s := Run(cfg, start, events);
    FreshSteady(channels, readerChannels, capacity);
    RunSteady(cfg, start, events);
    SteadyCounters(s);
    var j, p := EndToEnd(cfg, channels, readerChannels, capacity, events);
    AtBounds(s.frames, j, p);
    if s.r.block.ready {
      first, end := LastIsConsecutive(s, j, Delivery(s.r.block.counter, s.r.block.samples));
    }
  }

  lemma FreshSteady(channels: seq<Channel>, readerChannels: seq<Channel>, capacity: nat)
    ensures Steady(Fresh(channels, readerChannels, capacity))
  {
  }

  lemma SteadyCounters(s: LinkState)
    requires Steady(s)
    ensures |s.counters| == |s.pushes|
  {
  }

  lemma AtBounds(fs: seq<Frame>, j: nat, p: nat)
    requires At(fs, j, p)
    ensures j <= |fs|
  {
  }

  lemma LastIsConsecutive(s: LinkState, j: nat, d: Delivery) returns (first: nat, end: nat)
    requires Steady(s) && j <= |s.frames| && HoldsLast(d, s.frames[..j]) && |s.counters| == |s.pushes|
    ensures first < end <= |s.pushes|
    ensures d == Delivery(s.counters[first], Flat(s.pushes[first..end]))
  {
    hide Steady, Vectors, Flat;
    var fs := s.frames[..j];
    var a: nat :| WholeGroup(fs, a, |fs| - 1) && d == Delivery(fs[a].counter, Flat(Vectors(fs[a..|fs| - 1])));
    assert fs[a..|fs| - 1] == s.frames[a..j - 1];
    assert forall m | a < m < j - 1 :: s.frames[m] == fs[m];
    first := Consecutive(s, a, j - 1);
    end := first + |Vectors(s.frames[a..j - 1])|;
  }
}
