/** When a push is accepted and in which form it goes out, told from what happened before it. */
module CodecPacing {
  import opened Words
  import opened ResidualCode
  import opened CodecQueue
  import opened CodecDecoder
  import opened CodecFrames
  import opened CodecLink
  import opened CodecRun

  // ---------- One call ----------

  lemma PutBytes(cfg: Config, items: seq<Item>, bytes: seq<u8>)
    ensures Flatten(PutRecord(cfg, items, bytes)) == Flatten(items) + bytes
    ensures bytes != [] ==> PutRecord(cfg, items, bytes) != []
  {
    CodesLayout(bytes);
    RecordLayout(bytes);
    FlattenConcat(items, [Record(bytes)]);
    FlattenConcat(items, Codes(bytes));
  }

  /**
   * A push is taken exactly if no push has been refused since the queue was drained and more than sixteen bytes a
   * channel are free. The predictors follow every vector, taken or not.
   */
  lemma PushMeaning(cfg: Config, w: WriterState, samples: Vector, counter: u32)
    requires |samples| == |w.channels|
    ensures var w' := PushSample(cfg, w, samples, counter);
            var taken := !w.backpressure && cfg.capacity - 1 - |Flatten(w.items)| > 16 * |w.channels|;
            && w'.backpressure == !taken
            && Flatten(w'.items) == Flatten(w.items) +
                 (if !taken then [] else if w.tillSync == 0 then ResyncBytes(counter, w'.channels)
                  else EncodeAll(Residuals(w.channels, samples)))
            && w'.tillSync == (if taken && w.tillSync == 0 then cfg.period else if taken then w.tillSync - 1
                               else if w.backpressure then w.tillSync else 0)
            && (!taken ==> w'.items == w.items)
    ensures var w' := PushSample(cfg, w, samples, counter);
            && |w'.channels| == |w.channels|
            && forall i | 0 <= i < |samples| ::
                 w'.channels[i] == Channel(samples[i], ToI16(samples[i] - w.channels[i].sample))
  {
    hide Flatten, EncodeAll;
    var next, codes := Predicted(w.channels, samples), EncodeAll(Residuals(w.channels, samples));
    PutBytes(cfg, w.items, ResyncBytes(counter, next));
    CodesLayout(codes);
    FlattenConcat(w.items, Codes(codes));
    assert Flatten(w.items) + [] == Flatten(w.items);
  }

  /** A flush is taken exactly if more than sixteen bytes are free. */
  lemma FlushMeaning(cfg: Config, w: WriterState)
    ensures var (w', ok) := Flush(cfg, w);
            && (ok <==> cfg.capacity - 1 - |Flatten(w.items)| > 16)
            && Flatten(w'.items) == Flatten(w.items) + (if ok then [0xFE] else [])
            && w' == w.(items := w'.items, tillSync := if ok then 0 else w.tillSync)
            && (ok ==> w'.items != []) && (!ok ==> w'.items == w.items)
  {
    hide Flatten, PutRecord;
    PutBytes(cfg, w.items, [FLUSH]);
    assert Flatten(w.items) + [] == Flatten(w.items);
  }

  /**
   * A read hands out the oldest bytes: the record in front whole or not at all, or sample bytes up to the next record,
   * as many as there is room for. One that drains the queue lets pushes in again, and no other does.
   */
  lemma ReadMeaning(w: WriterState, room: nat)
    ensures var (kind, bytes, w') := ReadNext(w, room);
            && |bytes| <= room
            && bytes + Flatten(w'.items) == Flatten(w.items)
            && w' == w.(items := w'.items, backpressure := w.backpressure && (bytes == [] || w'.items != []))
            && (bytes == [] ==> w'.items == w.items)
            && (kind == Control <==> w.items != [] && w.items[0].Record?)
            && (kind == Control ==> bytes == if |w.items[0].bytes| <= room then w.items[0].bytes else [])
            && (kind == Sample ==>
                  && |bytes| <= |w.items| && (forall i | 0 <= i < |bytes| :: w.items[i].Code?)
                  && (|bytes| == room || |bytes| == |w.items| || w.items[|bytes|].Record?))
  {
    hide Flatten, Take;
    if w.items != [] && w.items[0].Record? {
      RecordTaken(w.items, room);
    } else {
      CodesTaken(w.items, room);
    }
    var taken := Take(w.items, room).1;
    if taken == [] { assert taken + Flatten(w.items) == Flatten(w.items); }
  }

  lemma RecordTaken(items: seq<Item>, room: nat)
    requires items != [] && items[0].Record?
    ensures Take(items, room)
         == if |items[0].bytes| <= room then (Control, items[0].bytes, items[1..]) else (Control, [], items)
    ensures Flatten(items) == items[0].bytes + Flatten(items[1..])
  {
  }

  lemma CodesTaken(items: seq<Item>, room: nat)
    requires items == [] || items[0].Code?
    ensures var (kind, bytes, rest) := Take(items, room);
            && kind == Sample && |bytes| <= room && bytes + Flatten(rest) == Flatten(items)
            && |bytes| <= |items| && (forall i | 0 <= i < |bytes| :: items[i].Code?)
            && (|bytes| == room || |bytes| == |items| || items[|bytes|].Record?)
            && (bytes == [] ==> rest == items)
  {
    hide Flatten, Lead;
    var n := if Lead(items) <= room then Lead(items) else room;
    CodesSplit(items, n);
    assert Take(items, room) == (Sample, Flatten(items[..n]), items[n..]);
  }

  lemma CodesSplit(items: seq<Item>, n: nat)
    requires n <= Lead(items)
    ensures |Flatten(items[..n])| == n && Flatten(items[..n]) + Flatten(items[n..]) == Flatten(items)
    ensures n == 0 ==> items[n..] == items
  {
    LeadLayout(items, n);
    hide Flatten, Lead;
    FlattenConcat(items[..n], items[n..]);
    assert items[..n] + items[n..] == items;
  }

  // ---------- Whole runs: who is let in ----------

  lemma {:induction false} RunSnoc(cfg: Config, s: LinkState, events: seq<Event>, e: Event)
    ensures Run(cfg, s, events + [e]) == Next(cfg, Run(cfg, s, events), e)
    decreases |events|
  {
    hide Next, Run;
    RunUnfold(cfg, s, events);
    RunUnfold(cfg, s, events + [e]);
    if events == [] {
      RunUnfold(cfg, Next(cfg, s, e), []);
      assert ([] + [e])[1..] == [];
    } else {
      assert (events + [e])[1..] == events[1..] + [e];
      RunSnoc(cfg, Next(cfg, s, events[0]), events[1..], e);
    }
  }

  predicate Accepts(cfg: Config, s: LinkState, samples: Vector, counter: u32) {
    Next(cfg, s, Push(samples, counter)).accepted == s.accepted + [samples]
  }

  /** The event is a push that is not accepted. */
  predicate Refused(cfg: Config, s: LinkState, e: Event) {
    e.Push? && |e.samples| == |s.w.channels| && !Accepts(cfg, s, e.samples, e.counter)
  }

  /** The queue holds something after each of the first events from number `i` on. */
  ghost predicate HeldSince(cfg: Config, s: LinkState, events: seq<Event>, i: nat) {
    forall m: nat | i < m <= |events| :: Run(cfg, s, events[..m]).w.items != []
  }

  /** Some push has been refused, and the queue has not been drained since. */
  ghost predicate Blocked(cfg: Config, s: LinkState, events: seq<Event>) {
    exists i: nat :: i < |events| && Refused(cfg, Run(cfg, s, events[..i]), events[i]) && HeldSince(cfg, s, events, i)
  }

  lemma HeldSnoc(cfg: Config, s: LinkState, events: seq<Event>, e: Event, i: nat)
    requires i <= |events|
    ensures HeldSince(cfg, s, events + [e], i) <==>
            HeldSince(cfg, s, events, i) && Run(cfg, s, events + [e]).w.items != []
  {
    hide Run;
    var all := events + [e];
    assert all[..|all|] == all;
    assert forall m: nat | m <= |events| :: all[..m] == events[..m];
  }

  lemma BlockedSnoc(cfg: Config, s: LinkState, events: seq<Event>, e: Event)
    ensures Blocked(cfg, s, events + [e]) <==>
            && (Blocked(cfg, s, events) || Refused(cfg, Run(cfg, s, events), e))
            && Run(cfg, s, events + [e]).w.items != []
  {
    hide Run, Refused, HeldSince;
    var all, n := events + [e], |events|;
    assert all[..n] == events && all[n] == e;
    HeldSnoc(cfg, s, events, e, n);
    assert HeldSince(cfg, s, events, n) by { HeldTrivially(cfg, s, events); }
    forall i: nat | i < n
      ensures all[..i] == events[..i] && all[i] == events[i]
      ensures HeldSince(cfg, s, all, i) <==> HeldSince(cfg, s, events, i) && Run(cfg, s, all).w.items != []
    {
      HeldSnoc(cfg, s, events, e, i);
    }
    if Blocked(cfg, s, events) && Run(cfg, s, all).w.items != [] {
      var i: nat :| i < n && Refused(cfg, Run(cfg, s, events[..i]), events[i]) && HeldSince(cfg, s, events, i);
      assert Refused(cfg, Run(cfg, s, all[..i]), all[i]) && HeldSince(cfg, s, all, i);
    }
  }

  lemma HeldTrivially(cfg: Config, s: LinkState, events: seq<Event>)
    ensures HeldSince(cfg, s, events, |events|)
  {
  }

  lemma SpaceMeansHeld(items: seq<Item>)
    ensures |Flatten(items)| > 0 ==> items != []
  {
  }

  /** How one event changes whether pushes are turned away. */
  lemma BackpressureStep(cfg: Config, s: LinkState, e: Event)
    requires cfg.capacity - 1 > 16 * |s.w.channels| && (s.w.backpressure ==> s.w.items != [])
    ensures var s' := Next(cfg, s, e);
            && |s'.w.channels| == |s.w.channels|
            && (s'.w.backpressure <==> (s.w.backpressure || Refused(cfg, s, e)) && s'.w.items != [])
  {
    hide PushSample, Flush, ReadNext, Flatten, Decode;
    SpaceMeansHeld(s.w.items);
    match e
    case Push(samples, counter) =>
      if |samples| == |s.w.channels| {
        PushMeaning(cfg, s.w, samples, counter);
        assert s.accepted + [] != s.accepted + [samples];
      }
    case RequestFlush => FlushMeaning(cfg, s.w);
    case Pump(room) => ReadMeaning(s.w, room);
    case Poll =>
    case Transfer(room) => ReadMeaning(s.w, room);
  }

  lemma {:induction false} BackpressureIff(cfg: Config, s: LinkState, events: seq<Event>)
    requires cfg.capacity - 1 > 16 * |s.w.channels| && !s.w.backpressure
    ensures var t := Run(cfg, s, events);
            && |t.w.channels| == |s.w.channels|
            && (t.w.backpressure <==> Blocked(cfg, s, events)) && (t.w.backpressure ==> t.w.items != [])
    decreases |events|
  {
    hide Next, Refused;
    if events == [] {
    } else {
      hide Run, Blocked;
      var n := |events| - 1;
      var before, e := events[..n], events[n];
      assert events == before + [e];
      BackpressureIff(cfg, s, before);
      RunSnoc(cfg, s, before, e);
      BlockedSnoc(cfg, s, before, e);
      BackpressureStep(cfg, Run(cfg, s, before), e);
    }
  }

  lemma {:induction false} ChannelsStay(cfg: Config, s: LinkState, events: seq<Event>)
    ensures |Run(cfg, s, events).w.channels| == |s.w.channels|
    decreases |events|
  {
    hide Next, Run;
    RunUnfold(cfg, s, events);
    if events != [] {
      NextChannels(cfg, s, events[0]);
      ChannelsStay(cfg, Next(cfg, s, events[0]), events[1..]);
    }
  }

  lemma NextChannels(cfg: Config, s: LinkState, e: Event)
    ensures |Next(cfg, s, e).w.channels| == |s.w.channels|
  {
    hide Decode, Take, PutRecord, EncodeAll, ResyncBytes;
  }

  /**
   * In every run a push is accepted exactly if more than sixteen bytes a channel are free and the queue has been
   * drained since the last push that was refused. A refused push leaves the queue alone.
   */
  lemma AcceptedIff(cfg: Config, channels: seq<Channel>, readerChannels: seq<Channel>, capacity: nat,
                    events: seq<Event>, samples: Vector, counter: u32)
    requires |samples| == |channels|
    ensures var start := Fresh(channels, readerChannels, capacity);
            var s := Run(cfg, start, events);
            && (Accepts(cfg, s, samples, counter) <==>
                  cfg.capacity - 1 - |Flatten(s.w.items)| > 16 * |channels| && !Blocked(cfg, start, events))
            && (!Accepts(cfg, s, samples, counter) ==> Next(cfg, s, Push(samples, counter)).w.items == s.w.items)
  {
    hide Blocked, Run, PushSample, Flatten;
    var start := Fresh(channels, readerChannels, capacity);
    ChannelsStay(cfg, start, events);
    var s := Run(cfg, start, events);
    PushMeaning(cfg, s.w, samples, counter);
    if cfg.capacity - 1 > 16 * |channels| { BackpressureIff(cfg, start, events); }
    assert s.accepted + [] != s.accepted + [samples];
  }

  // ---------- Whole runs: resync or residuals ----------

  /** The latest push was refused. */
  predicate MissedLast(s: LinkState) {
    s.pushes != [] && (s.places == [] || Last(s.places) != |s.pushes| - 1)
  }

  /** The last `k` frames are vectors sent as residuals, and the one in front of them is a resync. */
  ghost predicate SinceResync(fs: seq<Frame>, k: int) {
    0 <= k < |fs| && fs[|fs| - 1 - k].Resync? && forall m | |fs| - k <= m < |fs| :: fs[m].Delta?
  }

  /** A resync is due: nothing has been sent, a flush or a refused push came last, or a period of vectors is over. */
  ghost predicate ResyncDue(cfg: Config, s: LinkState) {
    s.frames == [] || Last(s.frames).FlushMark? || MissedLast(s) || SinceResync(s.frames, cfg.period)
  }

  ghost predicate Paced(cfg: Config, s: LinkState) {
    && (s.w.backpressure ==> s.w.tillSync == 0)
    && (s.places != [] ==> Last(s.places) < |s.pushes|)
    && if s.frames == [] || Last(s.frames).FlushMark? || MissedLast(s) then s.w.tillSync == 0
       else SinceResync(s.frames, cfg.period - s.w.tillSync)
  }

  lemma SinceResyncUnique(fs: seq<Frame>, k: int, k': int)
    requires SinceResync(fs, k) && SinceResync(fs, k')
    ensures k == k'
  {
  }

  lemma SinceResyncSnoc(fs: seq<Frame>, f: Frame, k: int)
    ensures f.Resync? ==> SinceResync(fs + [f], 0)
    ensures f.Delta? && SinceResync(fs, k) ==> SinceResync(fs + [f], k + 1)
  {
  }

  /** A paced writer sends a resync exactly when one is due. */
  lemma DueIff(cfg: Config, s: LinkState)
    requires Paced(cfg, s)
    ensures s.w.tillSync == 0 <==> ResyncDue(cfg, s)
  {
    hide SinceResync;
    if s.frames != [] && !Last(s.frames).FlushMark? && !MissedLast(s) && SinceResync(s.frames, cfg.period) {
      SinceResyncUnique(s.frames, cfg.period, cfg.period - s.w.tillSync);
    }
  }

  /** What an accepted push adds to the history of frames. */
  predicate Sends(s: LinkState, s': LinkState, samples: Vector, counter: u32, resync: bool)
    requires |samples| == |s.w.channels|
  {
    s'.frames == s.frames + [if resync then Resync(counter, s'.w.channels)
                             else Delta(samples, Residuals(s.w.channels, samples))]
  }

  lemma PushSends(cfg: Config, s: LinkState, samples: Vector, counter: u32)
    requires |samples| == |s.w.channels|
    ensures var s' := Next(cfg, s, Push(samples, counter));
            && s'.pushes == s.pushes + [samples]
            && (if Accepts(cfg, s, samples, counter)
                then Sends(s, s', samples, counter, s.w.tillSync == 0) && s'.places == s.places + [|s.pushes|]
                else s'.frames == s.frames && s'.places == s.places)
            && (Accepts(cfg, s, samples, counter) <==> !s'.w.backpressure)
            && s'.w.tillSync == (if !s'.w.backpressure then if s.w.tillSync == 0 then cfg.period else s.w.tillSync - 1
                                 else if s.w.backpressure then s.w.tillSync else 0)
  {
    hide EncodeAll, Flatten, PutRecord, ResyncBytes, Residuals;
    assert s.accepted + [] != s.accepted + [samples] && s.frames + [] == s.frames && s.places + [] == s.places;
  }

  lemma PushPaced(cfg: Config, s: LinkState, samples: Vector, counter: u32)
    requires Paced(cfg, s) && |samples| == |s.w.channels|
    ensures Paced(cfg, Next(cfg, s, Push(samples, counter)))
  {
    hide Next, Residuals, SinceResync, Accepts;
    PushSends(cfg, s, samples, counter);
    var s' := Next(cfg, s, Push(samples, counter));
    if Accepts(cfg, s, samples, counter) {
      SinceResyncSnoc(s.frames, Last(s'.frames), cfg.period - s.w.tillSync);
    }
  }

  lemma OtherPaced(cfg: Config, s: LinkState, e: Event)
    requires Paced(cfg, s) && !e.Push?
    ensures Paced(cfg, Next(cfg, s, e))
  {
    hide ReadNext, Decode, Flush, SinceResync, Flatten;
    match e
    case RequestFlush =>
      FlushMeaning(cfg, s.w);
      assert s.frames + [] == s.frames;
    case Pump(room) => ReadMeaning(s.w, room);
    case Poll =>
    case Transfer(room) => ReadMeaning(s.w, room);
  }

  lemma {:induction false} RunPaced(cfg: Config, s: LinkState, events: seq<Event>)
    requires Paced(cfg, s)
    ensures Paced(cfg, Run(cfg, s, events))
    decreases |events|
  {
    hide Paced, Run;
    RunUnfold(cfg, s, events);
    if events != [] {
      var e := events[0];
      if !e.Push? {
        OtherPaced(cfg, s, e);
      } else if |e.samples| == |s.w.channels| {
        PushPaced(cfg, s, e.samples, e.counter);
      }
      RunPaced(cfg, Next(cfg, s, e), events[1..]);
    }
  }

  /**
   * In every run an accepted push goes out as a resync exactly if it is the first to be sent, follows a flush or a
   * refused push, or a whole period of vectors has followed the last resync; otherwise it goes out as residuals.
   */
  lemma ResyncIff(cfg: Config, channels: seq<Channel>, readerChannels: seq<Channel>, capacity: nat,
                  events: seq<Event>, samples: Vector, counter: u32)
    requires |samples| == |channels|
    ensures var s := Run(cfg, Fresh(channels, readerChannels, capacity), events);
            var s' := Next(cfg, s, Push(samples, counter));
            |s.w.channels| == |channels| &&
            if Accepts(cfg, s, samples, counter) then
              s'.frames == s.frames +
                [if ResyncDue(cfg, s) then Resync(counter, s'.w.channels)
                 else Delta(samples, Residuals(s.w.channels, samples))]
            else s'.frames == s.frames
  {
    hide Run, Next, Accepts, ResyncDue, Residuals;
    var start := Fresh(channels, readerChannels, capacity);
    ChannelsStay(cfg, start, events);
    RunPaced(cfg, start, events);
    var s := Run(cfg, start, events);
    DueIff(cfg, s);
    PushSends(cfg, s, samples, counter);
  }
}
