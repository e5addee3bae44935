/** What the sample decoder computes from the pieces it is given. */
module CodecDecoder {
  import opened Words
  import opened ResidualCode
  import opened CodecQueue

  const SCRATCH_SIZE := 64

  datatype Block = Block(ready: bool, counter: u32, samples: seq<i16>, capacity: nat)

  /** Either a resync payload waits to be applied, or sample codes are being decoded. */
  datatype Mode = Pending(payload: seq<u8>) | Decoding(phase: Phase)

  /** `dods` are the residuals received for the vector under way. */
  datatype ReaderState = ReaderState(inSync: bool, mode: Mode, dods: seq<i16>, channels: seq<Channel>, block: Block)

  datatype Err = OK | ResyncBad | NeedSync | Fault

  function Word(hi: u8, lo: u8): i16 { ToI16(Be16(hi, lo)) }

  function ReadCounter(p: seq<u8>): u32
    requires |p| >= 4
  {
    Be32(p[0], p[1], p[2], p[3])
  }

  /** The first `n` channels of `p`, four bytes each. */
  function ReadChannels(p: seq<u8>, n: nat): (cs: seq<Channel>)
    requires |p| >= 4 * n
    ensures |cs| == n
  {
    seq(n, i requires 0 <= i < n => Channel(Word(p[4 * i], p[4 * i + 1]), Word(p[4 * i + 2], p[4 * i + 3])))
  }

  function SamplesOf(cs: seq<Channel>): (samples: seq<i16>)
    ensures |samples| == |cs|
  {
    seq(|cs|, i requires 0 <= i < |cs| => cs[i].sample)
  }

  function FollowAll(cs: seq<Channel>, dods: seq<i16>): (next: seq<Channel>)
    requires |dods| == |cs|
    ensures |next| == |cs|
  {
    seq(|cs|, i requires 0 <= i < |cs| => Follow(cs[i], dods[i]))
  }

  /** Applies a pending resync: the block starts over with the vector the record carries. */
  function Load(r: ReaderState): ReaderState {
    if !r.inSync || !r.mode.Pending? || |r.mode.payload| < 4 + 4 * |r.channels| then r
    else
      var counter := ReadCounter(r.mode.payload);
      if r.block.capacity == 0 then r.(block := r.block.(counter := counter, samples := []))
      else
        var channels := ReadChannels(r.mode.payload[4..], |r.channels|);
        r.(mode := Decoding(AtCode), channels := channels,
           block := Block(false, counter, SamplesOf(channels), r.block.capacity))
  }

  /** A complete residual vector becomes samples if the block has room for them. */
  function Emit(r: ReaderState): ReaderState {
    if |r.dods| != |r.channels| || r.block.capacity - |r.block.samples| < |r.channels| then r
    else
      var channels := FollowAll(r.channels, r.dods);
      r.(dods := [], channels := channels, block := r.block.(samples := r.block.samples + SamplesOf(channels)))
  }

  function FeedByte(r: ReaderState, b: u8): ReaderState {
    match r.mode
    case Pending(_) => Emit(r)
    case Decoding(p) =>
      var (q, now) := Step(p, b);
      Emit(r.(mode := Decoding(q), dods := r.dods + now))
  }

  function Feed(r: ReaderState, bytes: seq<u8>): ReaderState
    decreases |bytes|
  {
    if bytes == [] then r else Feed(FeedByte(r, bytes[0]), bytes[1..])
  }

  /** No byte of `bytes` meets a residual buffer that a full block has kept from being emptied. */
  predicate Safe(r: ReaderState, bytes: seq<u8>)
    decreases |bytes|
  {
    bytes == [] || (|r.dods| < |r.channels| && Safe(FeedByte(r, bytes[0]), bytes[1..]))
  }

  function DecodeControl(r: ReaderState, bytes: seq<u8>): (ReaderState, Err)
    requires bytes != []
  {
    if bytes[0] == RESYNCDOD then
      if |bytes| != 5 + 4 * |r.channels| || |bytes| > SCRATCH_SIZE then (r, ResyncBad)
      else (r.(inSync := true, mode := Pending(bytes[1..]), block := r.block.(ready := r.inSync || r.block.ready)), OK)
    else if bytes[0] == FLUSH then (r.(block := r.block.(ready := r.inSync || r.block.ready)), OK)
    else (r, Fault)
  }

  function Decode(r: ReaderState, bytes: seq<u8>, kind: Kind): (ReaderState, Err) {
    if bytes == [] then (r, OK)
    else
      var loaded := Load(r);
      match kind
      case Control => DecodeControl(loaded, bytes)
      case Sample => if loaded.inSync then (Feed(loaded, bytes), OK) else (loaded, NeedSync)
  }
}
