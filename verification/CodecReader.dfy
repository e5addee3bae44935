/** The decoder `daq::codec::Reader` and the sample block it fills. */
module CodecReader {
  import opened Words
  import opened ResidualCode
  import opened CodecQueue
  import opened CodecDecoder

  class SampleBlock {
    var ready: bool
    var counter: u32
    var samples: seq<i16>
    const capacity: nat

    constructor (capacity: nat)
      ensures View() == Block(false, 0, [], capacity)
    {
      this.capacity := capacity;
      ready, counter, samples := false, 0, [];
    }

    function View(): Block
      reads this
    {
      Block(ready, counter, samples, capacity)
    }

    /** The finished samples, once; nothing while the block is being filled. */
    method GetSamples() returns (out: seq<i16>)
      modifies this
      ensures out == if old(ready) then samples else []
      ensures View() == old(View()).(ready := false)
    {
      if ready {
        ready := false;
        return samples;
      }
      return [];
    }
  }

  datatype Tag = AwaitLoad | Dod | Large16 | VirtualBits

  class Reader {
    const scratch: array<u8>
    const dodBuf: array<i16>
    const channels: array<Channel>
    const block: SampleBlock
    var currentChannel: nat
    var tag: Tag
    var stateRem: u8
    var inSync: bool

    ghost predicate Valid()
      reads this, scratch
    {
      && scratch.Length == SCRATCH_SIZE
      && dodBuf.Length == channels.Length
      && 1 <= channels.Length <= 15
      && currentChannel <= channels.Length
      && (tag == AwaitLoad ==> inSync && 4 + 4 * channels.Length < SCRATCH_SIZE)
      && (tag == Large16 ==> 1 <= stateRem <= 2)
      && (tag == VirtualBits ==> stateRem == 1 && scratch[0] < 8)
    }

    ghost function Mode(): Mode
      requires Valid()
      reads this, scratch
    {
      match tag
      case AwaitLoad => Pending(scratch[..4 + 4 * channels.Length])
      case Dod => Decoding(AtCode)
      case Large16 => Decoding(InLarge(if stateRem == 2 then [] else [scratch[0]]))
      case VirtualBits => Decoding(InVirtual(scratch[0]))
    }

    ghost function State(): ReaderState
      requires Valid()
      reads this, scratch, dodBuf, channels, block
    {
      ReaderState(inSync, Mode(), dodBuf[..currentChannel], channels[..], block.View())
    }

    constructor (channels: array<Channel>, dodBuf: array<i16>, block: SampleBlock)
      requires dodBuf.Length == channels.Length && 1 <= channels.Length <= 15
      ensures Valid() && fresh(scratch)
      ensures this.channels == channels && this.dodBuf == dodBuf && this.block == block
      ensures State() == ReaderState(false, Decoding(AtCode), [], channels[..], block.View())
    {
      scratch := new u8[SCRATCH_SIZE];
      this.dodBuf, this.channels, this.block := dodBuf, channels, block;
      currentChannel, tag, stateRem, inSync := 0, Dod, 0, false;
    }

    method SyncUpdate()
      requires Valid() && tag == AwaitLoad
      requires block.capacity == 0 || block.capacity >= channels.Length
      requires channels as object != dodBuf && channels as object != scratch
      modifies this, channels, block
      ensures Valid() && State() == Load(old(State()))
    {
      hide Word, Be32;
      ghost var payload := scratch[..4 + 4 * channels.Length];
      block.counter := Be32(scratch[0], scratch[1], scratch[2], scratch[3]);
      block.samples := [];
      if block.capacity == 0 {
        return;
      }
      LoadChannels(payload[4..]);
      block.ready := false;
      tag := Dod;
    }

    /** Takes over samples and deltas from the scratch buffer. */
    method LoadChannels(ghost bytes: seq<u8>)
      requires Valid() && 4 + 4 * channels.Length < SCRATCH_SIZE && bytes == scratch[4..4 + 4 * channels.Length]
      requires channels as object != dodBuf && channels as object != scratch && block.samples == []
      modifies channels, block`samples
      ensures channels[..] == ReadChannels(bytes, channels.Length) && block.samples == SamplesOf(channels[..])
    {
      hide Word;
      ghost var target := ReadChannels(bytes, channels.Length);
      for i := 0 to channels.Length
        invariant block.samples == SamplesOf(target[..i])
        invariant channels[..i] == target[..i]
        invariant scratch[..] == old(scratch[..])
      {
        var sample := Word(scratch[4 + 4 * i], scratch[5 + 4 * i]);
        var delta := Word(scratch[6 + 4 * i], scratch[7 + 4 * i]);
        block.samples := block.samples + [sample];
        channels[i] := Channel(sample, delta);
        assert channels[i] == target[i];
      }
      assert target[..|target|] == target;
    }

    /** Channels as they are, filled up from residuals decoded so far. */
    method EmitSample()
      requires Valid() && currentChannel == channels.Length
      requires channels as object != dodBuf && channels as object != scratch
      modifies this, channels, block
      ensures Valid() && State() == Emit(old(State())) && tag == old(tag) && inSync == old(inSync)
    {
      hide ToI16;
      if block.capacity - |block.samples| < channels.Length {
        return;
      }
      ghost var target := FollowAll(channels[..], dodBuf[..]);
      assert dodBuf[..currentChannel] == dodBuf[..];
      for i := 0 to channels.Length
        modifies channels, block
        invariant channels[..i] == target[..i] && channels[i..] == old(channels[i..])
        invariant block.samples == old(block.samples) + SamplesOf(target[..i])
        invariant block.ready == old(block.ready) && block.counter == old(block.counter)
        invariant dodBuf[..] == old(dodBuf[..]) && scratch[..] == old(scratch[..])
      {
        assert channels[i] == old(channels[..])[i];
        var delta := ToI16(dodBuf[i] + channels[i].delta);
        var sample := ToI16(delta + channels[i].sample);
        channels[i] := Channel(sample, delta);
        block.samples := block.samples + [sample];
        assert SamplesOf(target[..i + 1]) == SamplesOf(target[..i]) + [sample];
      }
      assert target[..|target|] == target;
      currentChannel := 0;
    }

    method DecodeByte(byte: u8)
      requires Valid() && currentChannel < channels.Length
      requires channels as object != dodBuf && channels as object != scratch && dodBuf as object != scratch
      modifies this, scratch, dodBuf
      ensures Valid() && inSync == old(inSync) && (tag == AwaitLoad <==> old(tag) == AwaitLoad)
      ensures old(tag) == AwaitLoad ==> State() == old(State())
      ensures old(tag) != AwaitLoad ==>
                var (phase, now) := Step(old(Mode()).phase, byte);
                Mode() == Decoding(phase) && dodBuf[..currentChannel] == old(dodBuf[..currentChannel]) + now
    {
      match tag
      case AwaitLoad =>
      case Dod =>
        if byte > VIRTUAL_BITS_END {
          if byte == LARGE16 {
            tag, stateRem := Large16, 2;
          }
        } else if byte > VIRTUAL_BITS_START {
          tag, stateRem := VirtualBits, 1;
          scratch[0] := byte - VIRTUAL_BITS_START;
        } else {
          dodBuf[currentChannel] := Unzigzag(byte);
          currentChannel := currentChannel + 1;
        }
      case Large16 =>
        scratch[2 - stateRem] := byte;
        stateRem := stateRem - 1;
        if stateRem == 0 {
          dodBuf[currentChannel] := Unzigzag(Be16(scratch[0], scratch[1]));
          currentChannel := currentChannel + 1;
          tag := Dod;
        }
      case VirtualBits =>
        scratch[1] := byte;
        stateRem := stateRem - 1;
        if stateRem == 0 {
          dodBuf[currentChannel] := Unzigzag(Be16(scratch[0], scratch[1]));
          currentChannel := currentChannel + 1;
          tag := Dod;
        }
    }

    method DecodeSample(buf: seq<u8>)
      requires Valid() && Safe(State(), buf)
      requires channels as object != dodBuf && channels as object != scratch && dodBuf as object != scratch
      modifies this, scratch, dodBuf, channels, block
      ensures Valid() && State() == Feed(old(State()), buf)
    {
      for i := 0 to |buf|
        invariant Valid() && Safe(State(), buf[i..])
        invariant Feed(State(), buf[i..]) == Feed(old(State()), buf)
      {
        assert buf[i..][0] == buf[i] && buf[i..][1..] == buf[i + 1..];
        DecodeByte(buf[i]);
        if currentChannel == channels.Length {
          EmitSample();
        }
      }
    }

    method Decode(buf: seq<u8>, kind: Kind) returns (err: Err)
      requires Valid()
      requires block.capacity == 0 || block.capacity >= channels.Length
      requires kind == Sample ==> Safe(Load(State()), buf)
      requires channels as object != dodBuf && channels as object != scratch && dodBuf as object != scratch
      modifies this, scratch, dodBuf, channels, block
      ensures Valid() && (State(), err) == CodecDecoder.Decode(old(State()), buf, kind)
    {
      if |buf| == 0 {
        return OK;
      }
      if inSync && tag == AwaitLoad {
        SyncUpdate();
      }
      if kind == Control {
        err := DecodeControl(buf);
      } else if inSync {
        DecodeSample(buf);
        err := OK;
      } else {
        err := NeedSync;
      }
    }

    /** The source copies one byte past the record into the last scratch slot; only the record's bytes are modelled. */
    method DecodeControl(buf: seq<u8>) returns (err: Err)
      requires Valid() && buf != []
      requires channels as object != scratch && dodBuf as object != scratch
      modifies this, scratch, block
      ensures Valid() && (State(), err) == CodecDecoder.DecodeControl(old(State()), buf)
    {
      if buf[0] == RESYNCDOD {
        if |buf| != 5 + 4 * channels.Length || |buf| > SCRATCH_SIZE {
          return ResyncBad;
        }
        for i := 0 to |buf| - 1
          modifies scratch
          invariant scratch[..i] == buf[1..][..i]
        {
          scratch[i] := buf[1 + i];
        }
        if inSync {
          block.ready := true;
        }
        inSync := true;
        tag := AwaitLoad;
        assert scratch[..4 + 4 * channels.Length] == buf[1..];
        return OK;
      } else if buf[0] == FLUSH {
        if inSync {
          block.ready := true;
        }
        return OK;
      }
      return Fault;
    }
  }
}
