/** How `readNext` cuts the queued stream into pieces: nothing lost, nothing reordered, records whole. */
module CodecSegments {
  import opened Words
  import opened ResidualCode
  import opened CodecQueue
  import opened CodecDecoder
  import opened CodecFrames
  import opened CodecLink
  import opened CodecRun

  function PieceItems(p: Piece): seq<Item> {
    if p.kind == Control then [Record(p.bytes)] else Codes(p.bytes)
  }

  function AllItems(ps: seq<Piece>): seq<Item> {
    if ps == [] then [] else AllItems(ps[..|ps| - 1]) + PieceItems(ps[|ps| - 1])
  }

  function AllBytes(ps: seq<Piece>): seq<u8> {
    if ps == [] then [] else AllBytes(ps[..|ps| - 1]) + ps[|ps| - 1].bytes
  }

  /** The bytes handed out, then those still queued, are the bytes of everything written. */
  predicate BytesKept(s: LinkState) {
    AllBytes(s.pieces) + Flatten(s.w.items) == Flatten(Expand(s.frames))
  }

  /** So are the records, each handed out as one control piece, and the sample bytes between them. */
  predicate ItemsKept(s: LinkState) {
    AllItems(s.pieces) + s.w.items == Expand(s.frames)
  }

  /** A record that is written finds room for its mark. */
  predicate MarkFits(cfg: Config, s: LinkState, e: Event) {
    match e
    case Push(samples, _) =>
      |samples| == |s.w.channels| && Judge(cfg, s.w) == Synced ==> Records(s.w.items) + 1 < cfg.markCapacity
    case RequestFlush => Room(cfg, s.w.items) > CONTROL_RESERVE ==> Records(s.w.items) + 1 < cfg.markCapacity
    case _ => true
  }

  predicate MarksFit(cfg: Config, s: LinkState, events: seq<Event>)
    decreases |events|
  {
    events == [] || (MarkFits(cfg, s, events[0]) && MarksFit(cfg, Next(cfg, s, events[0]), events[1..]))
  }

  // ---------- Reading ----------

  /** What a read removes from the queue is the piece it hands out. */
  lemma TakenPiece(items: seq<Item>, room: nat)
    ensures var (kind, bytes, rest) := Take(items, room);
            bytes != [] ==> items == PieceItems(Piece(kind, bytes)) + rest
  {
    hide Flatten, Lead;
    if items != [] && items[0].Record? {
      assert items == [items[0]] + items[1..];
    } else {
      var n := if Lead(items) <= room then Lead(items) else room;
      LeadLayout(items, n);
      assert items == items[..n] + items[n..];
    }
  }

  lemma PieceBytes(p: Piece)
    ensures Flatten(PieceItems(p)) == p.bytes
  {
    if p.kind == Control { RecordLayout(p.bytes); } else { CodesLayout(p.bytes); }
  }

  lemma AllSnoc(ps: seq<Piece>, p: Piece)
    ensures AllItems(ps + [p]) == AllItems(ps) + PieceItems(p)
    ensures AllBytes(ps + [p]) == AllBytes(ps) + p.bytes
  {
    assert (ps + [p])[..|ps|] == ps;
  }

  lemma PumpKeeps(s: LinkState, room: nat)
    ensures BytesKept(s) ==> BytesKept(AfterPump(s, room))
    ensures ItemsKept(s) ==> ItemsKept(AfterPump(s, room))
  {
    hide Take, Decode, Flatten, Expand, AllItems, AllBytes, PieceItems;
    TakenPiece(s.w.items, room);
    var (kind, bytes, rest) := Take(s.w.items, room);
    var p := Piece(kind, bytes);
    assert s.pieces + [] == s.pieces;
    if bytes != [] {
      AllSnoc(s.pieces, p);
      PieceBytes(p);
      FlattenConcat(PieceItems(p), rest);
      ConcatAssoc(AllItems(s.pieces), PieceItems(p), rest);
      ConcatAssoc(AllBytes(s.pieces), bytes, Flatten(rest));
    }
  }

  // ---------- Writing ----------

  /** With or without its mark, a record puts the same bytes into the ring. */
  lemma PutBytes(cfg: Config, items: seq<Item>, bytes: seq<u8>)
    ensures Flatten(PutRecord(cfg, items, bytes)) == Flatten(items) + bytes
  {
    RecordLayout(bytes);
    CodesLayout(bytes);
    FlattenConcat(items, [Record(bytes)]);
    FlattenConcat(items, Codes(bytes));
  }

  /** One more frame: its bytes are queued, and so are its items unless its mark found no room. */
  lemma FrameQueued(s: LinkState, s': LinkState, f: Frame)
    requires s'.frames == s.frames + [f] && s'.pieces == s.pieces
    requires Flatten(s'.w.items) == Flatten(s.w.items) + Flatten(FrameItems(f))
    ensures BytesKept(s) ==> BytesKept(s')
    ensures ItemsKept(s) && s'.w.items == s.w.items + FrameItems(f) ==> ItemsKept(s')
  {
    hide Flatten, Expand, AllItems, AllBytes, FrameItems;
    ExpandSnoc(s.frames, f);
    FlattenConcat(Expand(s.frames), FrameItems(f));
    ConcatAssoc(AllBytes(s.pieces), Flatten(s.w.items), Flatten(FrameItems(f)));
    ConcatAssoc(AllItems(s.pieces), s.w.items, FrameItems(f));
  }

  lemma PushQueued(cfg: Config, s: LinkState, samples: Vector, counter: u32)
    requires |samples| == |s.w.channels|
    ensures var s' := AfterPush(cfg, s, samples, counter);
            var new' := PushFrames(cfg, s.w, samples, counter);
            && s'.pieces == s.pieces
            && (new' == [] ==> s'.frames == s.frames && s'.w.items == s.w.items)
            && (new' != [] ==>
                  && s'.frames == s.frames + [new'[0]]
                  && Flatten(s'.w.items) == Flatten(s.w.items) + Flatten(FrameItems(new'[0]))
                  && (MarkFits(cfg, s, Push(samples, counter)) ==> s'.w.items == s.w.items + FrameItems(new'[0])))
  {
    hide Flatten, Records, Room, Codes, ResyncBytes, Residuals, Predicted;
    assert s.frames + [] == s.frames;
    match Judge(cfg, s.w)
    case Dropped =>
    case Synced =>
      var bytes := ResyncBytes(counter, Predicted(s.w.channels, samples));
      PutBytes(cfg, s.w.items, bytes);
      RecordLayout(bytes);
    case Written =>
      FlattenConcat(s.w.items, Codes(EncodeAll(Residuals(s.w.channels, samples))));
  }

  lemma PushKeeps(cfg: Config, s: LinkState, samples: Vector, counter: u32)
    requires |samples| == |s.w.channels|
    ensures BytesKept(s) ==> BytesKept(AfterPush(cfg, s, samples, counter))
    ensures ItemsKept(s) && MarkFits(cfg, s, Push(samples, counter)) ==> ItemsKept(AfterPush(cfg, s, samples, counter))
  {
    hide AfterPush, PushFrames, Flatten, Expand, AllItems, AllBytes, FrameItems, MarkFits;
    PushQueued(cfg, s, samples, counter);
    var new' := PushFrames(cfg, s.w, samples, counter);
    if new' != [] { FrameQueued(s, AfterPush(cfg, s, samples, counter), new'[0]); }
  }

  lemma FlushKeeps(cfg: Config, s: LinkState)
    ensures BytesKept(s) ==> BytesKept(AfterFlush(cfg, s))
    ensures ItemsKept(s) && MarkFits(cfg, s, RequestFlush) ==> ItemsKept(AfterFlush(cfg, s))
  {
    hide Flatten, Expand, AllItems, AllBytes, Records, Codes, Room;
    PutBytes(cfg, s.w.items, [FLUSH]);
    RecordLayout([FLUSH]);
    assert s.frames + [] == s.frames;
    if Flush(cfg, s.w).1 { FrameQueued(s, AfterFlush(cfg, s), FlushMark); }
  }

  lemma NextKeeps(cfg: Config, s: LinkState, e: Event)
    ensures BytesKept(s) ==> BytesKept(Next(cfg, s, e))
    ensures ItemsKept(s) && MarkFits(cfg, s, e) ==> ItemsKept(Next(cfg, s, e))
  {
    hide AfterPush, AfterFlush, AfterPump, MarkFits, Flatten, Expand, AllItems, AllBytes;
    match e
    case Push(samples, counter) => if |samples| == |s.w.channels| { PushKeeps(cfg, s, samples, counter); }
    case RequestFlush => FlushKeeps(cfg, s);
    case Pump(room) => PumpKeeps(s, room);
    case Poll =>
    case Transfer(room) => PumpKeeps(s, room);
  }

  lemma {:induction false} RunKeeps(cfg: Config, s: LinkState, events: seq<Event>)
    ensures BytesKept(s) ==> BytesKept(Run(cfg, s, events))
    ensures ItemsKept(s) && MarksFit(cfg, s, events) ==> ItemsKept(Run(cfg, s, events))
    decreases |events|
  {
    hide Next, MarkFits, BytesKept, ItemsKept, AdmissibleRun, Attentive;
    if events != [] {
      NextKeeps(cfg, s, events[0]);
      RunKeeps(cfg, Next(cfg, s, events[0]), events[1..]);
    }
  }

  // ---------- Main result ----------

  /**
   * In every run, the pieces `readNext` has handed out followed by the bytes still queued are all bytes written, in
   * order. If every record found room for its mark, each record is handed out whole, as one control piece, and all
   * other bytes as sample pieces.
   */
  lemma RunSegments(cfg: Config, channels: seq<Channel>, readerChannels: seq<Channel>, capacity: nat,
                    events: seq<Event>)
    ensures var start := Fresh(channels, readerChannels, capacity);
            var s := Run(cfg, start, events);
            && AllBytes(s.pieces) + Flatten(s.w.items) == Flatten(Expand(s.frames))
            && (MarksFit(cfg, start, events) ==> AllItems(s.pieces) + s.w.items == Expand(s.frames))
  {
    RunKeeps(cfg, Fresh(channels, readerChannels, capacity), events);
  }
}
