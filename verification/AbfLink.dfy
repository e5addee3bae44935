/** What a receiver makes of the frames a sender encodes: round trip, recovery from any state, and a shared buffer. */
module AbfLink {
  import opened Words
  import opened AbfFrame
  import opened AbfParser

  /** How a stream is cut into calls makes no difference. */
  lemma {:induction false} FeedSplit(s: Parser, a: seq<u8>, b: seq<u8>)
    requires Fits(s)
    ensures Feed(s, a + b) == Feed(Feed(s, a), b)
  {
    hide Step;
    if b == [] {
      assert a + b == a;
    } else {
      var n := |b| - 1;
      assert (a + b)[..|a + b| - 1] == a + b[..n];
      FeedSplit(s, a, b[..n]);
    }
  }

  lemma FeedOne(s: Parser, b: u8)
    requires Fits(s)
    ensures Feed(s, [b]) == Step(s, b)
  {
    assert [b][..0] == [];
    assert Feed(s, []) == s;
  }

  // ---------- Errors ----------

  /**
   * A zero inside a payload is reported and ends it, yet it is stored as the first byte of the next; so a payload of
   * one byte is delivered all the same, as a zero.
   */
  lemma ZeroReported(s: Parser)
    requires Fits(s) && s.state.ReadPayload? && s.rxPos < s.header[2] && s.buffer != []
    ensures var t := Step(s, 0);
            && t.state.HuntSync? && t.buffer == s.buffer[0 := 0]
            && t.log == s.log + [Fault(PayloadIncomplete)]
                        + (if s.header[2] == 1 then [Delivered(Frame(s.header[1], [0]))] else [])
  {
    assert s.buffer[0 := 0][..1] == [0];
  }

  /** A byte beyond the end of the receive buffer is reported and ends the payload; nothing is delivered. */
  lemma OverflowReported(s: Parser, b: u8)
    requires Fits(s) && s.state.ReadPayload? && s.rxPos < s.header[2] && s.rxPos == |s.buffer| && b != 0
    ensures var t := Step(s, b);
            t.state.HuntSync? && t.buffer == s.buffer && t.log == s.log + [Fault(RxBufferSmall)]
  {
  }

  // ---------- Round trip ----------

  /** The parser in the middle of frame `f`, with `k` payload bytes stored. */
  ghost predicate Inside(s: Parser, f: Frame, k: nat)
    requires Sendable(f) && k <= |f.payload|
  {
    && Fits(s) && s.state.ReadPayload? && s.header == Header(f) && s.rxPos == k
    && s.buffer[..k] == f.payload[..k]
    && s.rxNextZero == (NextZero(f.payload, k) - k + 1) % 0x100
  }

  lemma HeaderByteRead(s: Parser, b: u8)
    requires Fits(s) && s.state.ReadHeader? && s.headerPos < 4
    ensures Step(s, b) == s.(header := s.header[s.headerPos := b], headerPos := s.headerPos + 1)
  {
  }

  lemma HeaderRead(s: Parser, h: seq<u8>)
    requires Fits(s) && s.state.HuntSync? && |h| == 5 && h[0] == 0
    ensures var t := s.(state := ReadHeader, headerPos := 4, header := h[..4] + [s.header[4]]);
            Fits(t) && Feed(s, h) == Step(t, h[4])
  {
    hide Check;
    FeedFive(s, h);
    var s1 := s.(state := ReadHeader, headerPos := 1, header := s.header[0 := 0]);
    assert Step(s, h[0]) == s1;
    hide Step;
    HeaderByteRead(s1, h[1]);
    HeaderByteRead(Step(s1, h[1]), h[2]);
    HeaderByteRead(Step(Step(s1, h[1]), h[2]), h[3]);
    assert s1.header[1 := h[1]][2 := h[2]][3 := h[3]] == h[..4] + [s.header[4]];
  }

  lemma HeaderAccepted(s: Parser, f: Frame)
    requires Fits(s) && s.state.HuntSync? && Sendable(f)
    ensures var t := Feed(s, Header(f)); Inside(t, f, 0) && t.log == s.log && |t.buffer| == |s.buffer|
  {
    hide Check, Feed, NextZero;
    var h := Header(f);
    HeaderRead(s, h);
    assert (h[..4] + [s.header[4]])[4 := h[4]] == h;
  }

  lemma FeedFive(s: Parser, h: seq<u8>)
    requires Fits(s) && |h| == 5
    ensures Feed(s, h) == Step(Step(Step(Step(Step(s, h[0]), h[1]), h[2]), h[3]), h[4])
  {
    hide Step;
    assert h[..1][..0] == [] && h[..2][..1] == h[..1] && h[..3][..2] == h[..2] && h[..4][..3] == h[..3];
    assert Feed(s, h[..1]) == Step(s, h[0]);
    assert Feed(s, h[..3]) == Step(Feed(s, h[..2]), h[2]);
  }

  lemma PayloadStored(s: Parser, f: Frame, k: nat)
    requires Sendable(f) && k < |f.payload| <= |s.buffer| && Inside(s, f, k)
    ensures var b := Stuffed(f.payload)[k];
            var t := PayloadByte(s, b, b);
            && b != 0 && t == s.(buffer := t.buffer, rxPos := k + 1, rxNextZero := t.rxNextZero)
            && |t.buffer| == |s.buffer| && t.buffer[..k + 1] == f.payload[..k + 1]
            && t.rxNextZero == (NextZero(f.payload, k + 1) - (k + 1) + 1) % 0x100
  {
    hide Check, NextZero, Code, Stuffed, Fits, PayloadByte;
    var p, b := f.payload, Stuffed(f.payload)[k];
    StuffedHere(p, k);
    DistanceFalls(NextZero(p, k + 1) - k);
    ByteStored(s, b);
    assert s.rxNextZero == 1 <==> p[k] == 0;
    assert s.buffer[k := p[k]][..k + 1] == s.buffer[..k] + [p[k]];
  }

  lemma ByteStored(s: Parser, b: u8)
    requires Fits(s) && s.rxPos < |s.buffer| && b != 0
    ensures PayloadByte(s, b, b) == Store(s, b, b)
  {
  }

  /** The distance to the next zero falls by one with each byte, in eight bits and one ahead. */
  lemma DistanceFalls(d: int)
    requires 1 <= d <= 255
    ensures (d + 1) % 0x100 != 1 && ((d + 1) % 0x100 + 0xFF) % 0x100 == d % 0x100 == d
  {
  }

  /** Byte `k` of the stuffed payload: the distance to the next zero, or the byte itself. */
  lemma StuffedHere(p: seq<u8>, k: nat)
    requires k < |p| <= 255
    ensures k < NextZero(p, k + 1) <= |p| && Stuffed(p)[k] != 0
    ensures p[k] == 0 ==> NextZero(p, k) == k && Stuffed(p)[k] == NextZero(p, k + 1) - k
    ensures p[k] != 0 ==> NextZero(p, k) == NextZero(p, k + 1) && Stuffed(p)[k] == p[k]
  {
  }

  lemma PayloadStep(s: Parser, f: Frame, k: nat)
    requires Sendable(f) && k < |f.payload| <= |s.buffer| && Inside(s, f, k)
    ensures var t := Step(s, Stuffed(f.payload)[k]);
            if k + 1 < |f.payload| then Inside(t, f, k + 1) && t.log == s.log && |t.buffer| == |s.buffer|
            else t.state.HuntSync? && t.log == s.log + [Delivered(f)]
  {
    hide Check, Stuffed, PayloadByte, NextZero;
    PayloadStored(s, f, k);
    assert f.payload[..|f.payload|] == f.payload;
  }

  lemma {:induction false} PayloadPrefix(s: Parser, f: Frame, k: nat)
    requires Fits(s) && Sendable(f) && k < |f.payload| <= |s.buffer| && Inside(s, f, 0)
    ensures var t := Feed(s, Stuffed(f.payload)[..k]); Inside(t, f, k) && t.log == s.log && |t.buffer| == |s.buffer|
  {
    hide Inside, Step, Stuffed;
    if k == 0 {
      assert Stuffed(f.payload)[..0] == [];
    } else {
      assert Stuffed(f.payload)[..k][..k - 1] == Stuffed(f.payload)[..k - 1];
      PayloadPrefix(s, f, k - 1);
      PayloadStep(Feed(s, Stuffed(f.payload)[..k - 1]), f, k - 1);
    }
  }

  /** An encoded frame that arrives while the parser hunts is delivered as it was sent, and nothing is reported. */
  lemma RoundTrip(s: Parser, f: Frame)
    requires Fits(s) && s.state.HuntSync? && Sendable(f) && |f.payload| <= |s.buffer|
    ensures var t := Feed(s, Wire(f));
            t.state.HuntSync? && t.log == s.log + [Delivered(f)]
  {
    hide Inside, Step, Header;
    var w, n := Stuffed(f.payload), |f.payload| - 1;
    FeedSplit(s, Header(f), w);
    HeaderAccepted(s, f);
    var s1 := Feed(s, Header(f));
    PayloadPrefix(s1, f, n);
    PayloadStep(Feed(s1, w[..n]), f, n);
  }

  // ---------- Bad headers ----------

  lemma {:induction false} PayloadCollected(s: Parser, data: seq<u8>)
    requires Fits(s) && s.state.ReadPayload? && 0 < |data| && s.rxPos + |data| == s.header[2] <= |s.buffer|
    requires forall i :: 0 <= i < |data| ==> data[i] != 0
    ensures var t := Feed(s, data);
            t.state.HuntSync? && t.log == s.log + [Delivered(Frame(s.header[1], t.buffer[..s.header[2]]))]
    decreases |data|
  {
    var s' := Step(s, data[0]);
    FeedOne(s, data[0]);
    if |data| == 1 {
      assert data == [data[0]];
    } else {
      PayloadCollected(s', data[1..]);
      FeedSplit(s, [data[0]], data[1..]);
      assert data == [data[0]] + data[1..];
    }
  }

  /**
   * A header is reported if and only if its check byte is wrong, and either way the announced number of bytes is read
   * and delivered: bad headers are not dropped.
   */
  lemma HeaderReportedIff(s: Parser, h: seq<u8>, data: seq<u8>)
    requires Fits(s) && s.state.HuntSync? && |h| == 5 && h[0] == 0 && 0 < h[2] == |data| <= |s.buffer|
    requires forall i :: 0 <= i < |data| ==> data[i] != 0
    ensures var t, bad := Feed(s, h + data), Check(h[1], h[2], h[3]) != h[4];
            && t.state.HuntSync?
            && t.log == s.log + (if bad then [Fault(HeaderCrcMismatch)] else [])
                      + [Delivered(Frame(h[1], t.buffer[..h[2]]))]
  {
    hide Check;
    FeedSplit(s, h, data);
    HeaderRead(s, h);
    hide Feed;
    PayloadCollected(Feed(s, h), data);
  }

  // ---------- Recovery ----------

  /** How many more bytes can pass before the parser hunts. */
  function Rank(s: Parser): (r: nat)
    requires Fits(s)
    ensures r <= 259
  {
    match s.state
    case HuntSync => 0
    case ReadHeader => 5 - s.headerPos + 255
    case ReadPayload => if s.header[2] == 0 then 1 else s.header[2] - s.rxPos
  }

  lemma RankFalls(s: Parser, b: u8)
    requires Fits(s) && !s.state.HuntSync?
    ensures Rank(Step(s, b)) < Rank(s)
  {
  }

  /** From every state, among any 259 bytes there is one after which the parser hunts. */
  lemma {:induction false} ReturnsToHunt(s: Parser, data: seq<u8>) returns (n: nat)
    requires Fits(s) && Rank(s) <= |data|
    ensures n <= Rank(s) && Feed(s, data[..n]).state.HuntSync?
    decreases Rank(s)
  {
    hide Step, Fits;
    if s.state.HuntSync? {
      n := 0;
      assert data[..0] == [];
    } else {
      assert Rank(s) > 0 by { RankFalls(s, 0); }
      RankFalls(s, data[0]);
      n := ReturnsToHunt(Step(s, data[0]), data[1..]);
      FeedOne(s, data[0]);
      FeedSplit(s, [data[0]], data[1..][..n]);
      assert [data[0]] + data[1..][..n] == data[..n + 1];
      n := n + 1;
    }
  }

  lemma {:induction false} HuntSkips(s: Parser, data: seq<u8>)
    requires Fits(s) && s.state.HuntSync? && forall i :: 0 <= i < |data| ==> data[i] != 0
    ensures Feed(s, data) == s
  {
    if data != [] { HuntSkips(s, data[..|data| - 1]); }
  }

  /** Frames for which a zero on the wire is always a sync byte, and which fit a receive buffer. */
  predicate Clean(f: Frame, capacity: nat) {
    Sendable(f) && |f.payload| <= capacity && Code(f.payload) != 0
  }

  predicate AllClean(fs: seq<Frame>, capacity: nat) {
    forall i :: 0 <= i < |fs| ==> Clean(fs[i], capacity)
  }

  /** Only a 255-byte payload without a zero is not clean for its code. */
  lemma CodeIsZeroIff(p: seq<u8>)
    requires |p| <= 255
    ensures Code(p) == 0 <==> |p| == 255 && forall i :: 0 <= i < |p| ==> p[i] != 0
  {
    if |p| == 255 && forall i :: 0 <= i < |p| ==> p[i] != 0 { NextZeroIs(p, 0, 255); }
  }

  function WireAll(fs: seq<Frame>): seq<u8>
    requires forall i :: 0 <= i < |fs| ==> Sendable(fs[i])
  {
    if fs == [] then [] else Wire(fs[0]) + WireAll(fs[1..])
  }

  function Deliveries(fs: seq<Frame>): seq<Event> {
    seq(|fs|, i requires 0 <= i < |fs| => Delivered(fs[i]))
  }

  /** The frames whose sync byte is at position `n` or later. */
  function From(fs: seq<Frame>, n: nat): seq<Frame>
    requires forall i :: 0 <= i < |fs| ==> Sendable(fs[i])
  {
    if n == 0 || fs == [] then fs
    else if n < |Wire(fs[0])| then fs[1..]
    else From(fs[1..], n - |Wire(fs[0])|)
  }

  lemma WireHasOneZero(f: Frame, i: nat)
    requires Sendable(f) && Code(f.payload) != 0 && 0 < i < |Wire(f)|
    ensures Wire(f)[i] != 0
  {
    hide Check;
  }

  lemma SomeClean(fs: seq<Frame>, capacity: nat)
    requires AllClean(fs, capacity)
    ensures forall i :: 0 <= i < |fs| ==> Sendable(fs[i]) && |fs[i].payload| <= capacity
  {
  }

  lemma {:induction false} AllDelivered(s: Parser, fs: seq<Frame>)
    requires Fits(s) && s.state.HuntSync? && AllClean(fs, |s.buffer|)
    ensures var t := Feed(s, WireAll(fs)); t.state.HuntSync? && t.log == s.log + Deliveries(fs)
    decreases |fs|
  {
    hide Fits, Wire, Clean;
    SomeClean(fs, |s.buffer|);
    if fs == [] {
      assert s.log + Deliveries(fs) == s.log;
    } else {
      var t := Feed(s, Wire(fs[0]));
      RoundTrip(s, fs[0]);
      FeedSplit(s, Wire(fs[0]), WireAll(fs[1..]));
      AllDelivered(t, fs[1..]);
      assert Deliveries(fs) == [Delivered(fs[0])] + Deliveries(fs[1..]);
    }
  }

  /** What follows position `n` is a stretch without zeros and then the frames from there. */
  lemma {:induction false} RestOfStream(fs: seq<Frame>, n: nat, capacity: nat) returns (gap: seq<u8>)
    requires AllClean(fs, capacity) && n <= |WireAll(fs)|
    ensures forall i :: 0 <= i < |gap| ==> gap[i] != 0
    ensures AllClean(From(fs, n), capacity) && WireAll(fs)[n..] == gap + WireAll(From(fs, n))
  {
    hide Wire, Code;
    gap := [];
    if n == 0 || fs == [] {
    } else if n < |Wire(fs[0])| {
      gap := Wire(fs[0])[n..];
      forall i | 0 <= i < |gap| ensures gap[i] != 0 { WireHasOneZero(fs[0], n + i); }
    } else {
      gap := RestOfStream(fs[1..], n - |Wire(fs[0])|, capacity);
      assert WireAll(fs)[n..] == WireAll(fs[1..])[n - |Wire(fs[0])|..];
    }
  }

  /** Wherever the parser hunts, exactly the frames whose sync byte follows are delivered, in order. */
  lemma DeliveredFrom(s: Parser, fs: seq<Frame>, n: nat)
    requires Fits(s) && AllClean(fs, |s.buffer|) && n <= |WireAll(fs)|
    requires Feed(s, WireAll(fs)[..n]).state.HuntSync?
    ensures Feed(s, WireAll(fs)).state.HuntSync?
    ensures Feed(s, WireAll(fs)).log == Feed(s, WireAll(fs)[..n]).log + Deliveries(From(fs, n))
  {
    hide Fits, Feed, WireAll, From, Deliveries;
    var w, u := WireAll(fs), Feed(s, WireAll(fs)[..n]);
    var gap := RestOfStream(fs, n, |s.buffer|);
    assert w == w[..n] + w[n..];
    FeedSplit(s, w[..n], w[n..]);
    FeedSplit(u, gap, WireAll(From(fs, n)));
    HuntSkips(u, gap);
    AllDelivered(u, From(fs, n));
  }

  /** From any state whatever, at most 259 bytes of a clean stream are misread. */
  lemma SelfStabilises(s: Parser, fs: seq<Frame>) returns (n: nat)
    requires Fits(s) && AllClean(fs, |s.buffer|) && |WireAll(fs)| >= 259
    ensures n <= 259 && n <= |WireAll(fs)| && Feed(s, WireAll(fs)).state.HuntSync?
    ensures Feed(s, WireAll(fs)).log == Feed(s, WireAll(fs)[..n]).log + Deliveries(From(fs, n))
  {
    hide Fits, Feed, WireAll, From, Deliveries;
    n := ReturnsToHunt(s, WireAll(fs));
    DeliveredFrom(s, fs, n);
  }
}
