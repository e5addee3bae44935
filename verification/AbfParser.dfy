/** The receiving state machine of the asynchronous binary protocol, as a function of one byte. */
module AbfParser {
  import opened Words
  import opened AbfFrame

  datatype State = HuntSync | ReadHeader | ReadPayload

  datatype Err = Ok | PayloadIncomplete | HeaderCrcMismatch | RxBufferSmall | Unknown

  /** A callback: a delivered frame or a reported error. */
  datatype Event = Delivered(frame: Frame) | Fault(error: Err)

  datatype Parser = Parser(state: State, header: seq<u8>, headerPos: nat, rxPos: nat, rxNextZero: u8, buffer: seq<u8>,
                           log: seq<Event>)

  /** States the parser keeps to. */
  predicate Fits(s: Parser) {
    && |s.header| == 5 && |s.buffer| <= 255 && s.rxPos <= |s.buffer|
    && (s.state.ReadHeader? ==> 1 <= s.headerPos <= 4)
    && (s.state.ReadPayload? ==> s.rxPos < s.header[2] || s.rxPos == s.header[2] == 0)
  }

  function Reset(s: Parser): Parser {
    s.(state := HuntSync, rxPos := 0, headerPos := 0)
  }

  function Report(s: Parser, e: Event): Parser {
    s.(log := s.log + [e])
  }

  function Abort(s: Parser, e: Err): Parser {
    Report(Reset(s), Fault(e))
  }

  /** Stores a payload byte; `next` is what is read as the new distance when the byte stands for a zero. */
  function Store(s: Parser, b: u8, next: u8): Parser
    requires Fits(s) && s.rxPos < |s.buffer|
  {
    if s.rxNextZero == 1 then
      s.(buffer := s.buffer[s.rxPos := 0], rxPos := s.rxPos + 1, rxNextZero := next)
    else
      s.(buffer := s.buffer[s.rxPos := b], rxPos := s.rxPos + 1, rxNextZero := (s.rxNextZero + 0xFF) % 0x100)
  }

  function PayloadByte(s: Parser, b: u8, next: u8): (t: Parser)
    requires Fits(s)
  {
    var t := if b == 0 then Abort(s, PayloadIncomplete) else s;
    if t.rxPos < |t.buffer| then Store(t, b, next) else Abort(t, RxBufferSmall)
  }

  function HeaderByte(s: Parser, b: u8): Parser
    requires Fits(s) && s.state.ReadHeader?
  {
    var t := s.(header := s.header[s.headerPos := b]);
    if s.headerPos < 4 then
      t.(headerPos := s.headerPos + 1)
    else
      // A wrong check byte is reported, but the payload is read all the same.
      var u := if Check(t.header[1], t.header[2], t.header[3]) == b then t else Abort(t, HeaderCrcMismatch);
      u.(rxNextZero := t.header[3], state := ReadPayload, rxPos := 0, headerPos := u.headerPos + 1)
  }

  /** Delivers once the announced number of bytes is there. */
  function Complete(s: Parser): Parser
    requires Fits(s) || (|s.header| == 5 && s.rxPos <= |s.buffer| <= 255)
  {
    if s.rxPos == s.header[2] then
      Report(Reset(s), Delivered(Frame(s.header[1], s.buffer[..s.rxPos])))
    else
      s
  }

  /** One byte `b`; `next` differs from it only when the input shares the receive buffer. */
  function StepWith(s: Parser, b: u8, next: u8): (t: Parser)
    requires Fits(s)
    ensures Fits(t) && |t.buffer| == |s.buffer|
  {
    match s.state
    case HuntSync => if b == 0 then s.(state := ReadHeader, headerPos := 1, header := s.header[0 := 0]) else s
    case ReadHeader => HeaderByte(s, b)
    case ReadPayload => Complete(if s.rxPos < s.header[2] then PayloadByte(s, b, next) else s)
  }

  function Step(s: Parser, b: u8): (t: Parser)
    requires Fits(s)
    ensures Fits(t) && |t.buffer| == |s.buffer|
  {
    StepWith(s, b, b)
  }

  function Feed(s: Parser, data: seq<u8>): (t: Parser)
    requires Fits(s)
    ensures Fits(t) && |t.buffer| == |s.buffer|
  {
    if data == [] then s else Step(Feed(s, data[..|data| - 1]), data[|data| - 1])
  }

  lemma FeedNext(s: Parser, data: seq<u8>, i: nat)
    requires Fits(s) && i < |data|
    ensures Feed(s, data[..i + 1]) == Step(Feed(s, data[..i]), data[i])
  {
    assert data[..i + 1][..i] == data[..i];
  }

  /** Bytes i..n when the input is the receive buffer itself: each is read after the earlier ones were stored. */
  function FeedShared(s: Parser, i: nat, n: nat): (t: Parser)
    requires Fits(s) && i <= n <= |s.buffer|
    ensures Fits(t) && |t.buffer| == |s.buffer|
    decreases n
  {
    if n == i then s else StepShared(FeedShared(s, i, n - 1), n - 1)
  }

  function StepShared(s: Parser, i: nat): (t: Parser)
    requires Fits(s) && i < |s.buffer|
    ensures Fits(t) && |t.buffer| == |s.buffer|
  {
    var b := s.buffer[i];
    // The distance is read again after the zero has been stored.
    var at := if s.state.ReadPayload? && b != 0 then s.rxPos else 0;
    StepWith(s, b, if at == i then 0 else b)
  }

  lemma FeedNothing(s: Parser)
    requires Fits(s)
    ensures Feed(s, []) == s && FeedShared(s, 0, 0) == s
  {
  }

  lemma FeedSharedNext(s: Parser, n: nat)
    requires Fits(s) && n < |s.buffer|
    ensures FeedShared(s, 0, n + 1) == StepShared(FeedShared(s, 0, n), n)
  {
  }
}
