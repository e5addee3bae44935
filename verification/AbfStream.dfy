/** The protocol handler: it stuffs payloads in place and parses the received stream byte by byte. */
module AbfStream {
  import opened Words
  import opened AbfFrame
  import opened AbfParser
  import Crc8

  class Stream {
    const rxPayload: array<u8>
    const rxCapacity: u8
    var rxPos: nat
    var rxNextZero: u8
    var header: seq<u8>
    var headerPos: nat
    var state: State
    /** The callbacks made so far. */
    var log: seq<Event>

    ghost function Parser(): Parser
      reads this, rxPayload
    {
      AbfParser.Parser(state, header, headerPos, rxPos, rxNextZero, rxPayload[..], log)
    }

    ghost predicate Valid()
      reads this, rxPayload
    {
      rxPayload.Length == rxCapacity && Fits(Parser())
    }

    constructor (buffer: array<u8>)
      requires buffer.Length <= 255
      ensures Valid() && rxPayload == buffer
      ensures Parser() == AbfParser.Parser(HuntSync, [0, 0, 0, 0, 0], 0, 0, 0, buffer[..], [])
    {
      rxPayload, rxCapacity := buffer, buffer.Length;
      rxPos, rxNextZero, header, headerPos, state, log := 0, 0, [0, 0, 0, 0, 0], 0, HuntSync, [];
    }

    method Reset()
      requires Valid()
      modifies this
      ensures Valid() && Parser() == AbfParser.Reset(old(Parser()))
    {
      state, rxPos, headerPos := HuntSync, 0, 0;
    }

    method OnFrame(service: u8, length: u8)
      requires length <= rxPayload.Length
      modifies this`log
      ensures log == old(log) + [Delivered(Frame(service, rxPayload[..length]))]
    {
      log := log + [Delivered(Frame(service, rxPayload[..length]))];
    }

    method OnError(error: Err)
      modifies this`log
      ensures log == old(log) + [Fault(error)]
    {
      log := log + [Fault(error)];
    }

    static method HeaderCheck(fields: seq<u8>) returns (c: u8)
      requires |fields| == 3
      ensures c == Check(fields[0], fields[1], fields[2])
    {
      hide Crc8.Crc;
      c := Crc8.Calculate(fields);
      assert fields == [fields[0], fields[1], fields[2]];
      if c == 0 { c := 0xFF; }
    }

    /**
     * The loop of `Encode`: a pointer follows the place of the next distance, first the code byte, then the last
     * zero.
     */
    static method Stuff(payload: array<u8>, payloadLen: u8) returns (code: u8)
      requires payloadLen <= payload.Length
      modifies payload
      ensures code == Code(old(payload[..payloadLen]))
      ensures payload[..] == Stuffed(old(payload[..payloadLen])) + old(payload[payloadLen..])
    {
      hide NextZero;
      ghost var p, was := payload[..payloadLen], payload[..];
      var inHeader, place, zeroDistance := true, 0, 0;
      code := 0;
      for i := 0 to payloadLen
        invariant inHeader ==> zeroDistance == i
        invariant !inHeader ==> place < i && zeroDistance == i - 1 - place && p[place] == 0 && code == Code(p)
        invariant forall j :: i - zeroDistance <= j < i ==> p[j] != 0
        invariant forall j :: 0 <= j < i && (inHeader || j != place) ==> payload[j] == StuffedAt(p, j)
        invariant forall j :: i <= j < payload.Length ==> payload[j] == was[j]
      {
        zeroDistance := zeroDistance + 1;
        if payload[i] == 0 {
          NextZeroIs(p, i + 1 - zeroDistance, i);
          if inHeader { code := zeroDistance; } else { payload[place] := zeroDistance; }
          inHeader, place, zeroDistance := false, i, 0;
        }
      }
      NextZeroIs(p, payloadLen - zeroDistance, payloadLen);
      if inHeader { code := (zeroDistance + 1) % 0x100; } else { payload[place] := zeroDistance + 1; }
      assert payload[..] == Stuffed(p) + was[payloadLen..];
    }

    /** Replaces the zeros of the payload in place and writes the five header bytes. */
    method Encode(header: array<u8>, payload: array<u8>, serviceId: u8, payloadLen: u8) returns (err: Err)
      requires header != payload && header.Length >= 5 && payloadLen <= payload.Length
      modifies header, payload
      ensures err == if payloadLen == 0 || serviceId == 0 then Unknown else Ok
      ensures err == Unknown ==> header[..] == old(header[..]) && payload[..] == old(payload[..])
      ensures err == Ok ==>
        var f := Frame(serviceId, old(payload[..payloadLen]));
        && header[..] == Header(f) + old(header[5..])
        && payload[..] == Stuffed(f.payload) + old(payload[payloadLen..])
    {
      hide NextZero, Check, Stuffed;
      if payloadLen == 0 || serviceId == 0 { return Unknown; }
      ghost var p, tail := payload[..payloadLen], header[5..];
      header[0], header[1], header[2] := 0, serviceId, payloadLen;
      header[3] := Stuff(payload, payloadLen);
      header[4] := HeaderCheck(header[1..4]);
      assert header[..] == Header(Frame(serviceId, p)) + tail;
      return Ok;
    }

    /** Consumes `length` bytes, which may lie in the receive buffer itself. */
    method Process(data: array<u8>, length: u16)
      requires Valid() && length <= data.Length
      modifies this, rxPayload
      ensures Valid()
      ensures data != rxPayload ==> Parser() == Feed(old(Parser()), old(data[..length]))
      ensures data == rxPayload ==> Parser() == FeedShared(old(Parser()), 0, length)
    {
      hide Step, StepShared, Feed, FeedShared;
      ghost var s0, input := Parser(), data[..length];
      FeedNothing(s0);
      assert data[..0] == [];
      for i := 0 to length
        invariant Valid()
        invariant data != rxPayload ==> data[..length] == input && Parser() == Feed(s0, input[..i])
        invariant data == rxPayload ==> Parser() == FeedShared(s0, 0, i)
      {
        if data == rxPayload { FeedSharedNext(s0, i); } else { FeedNext(s0, input, i); }
        ProcessByte(data, i);
      }
      assert input[..length] == input;
    }

    method PutByte(data: array<u8>, i: nat)
      requires Valid() && i < data.Length
      modifies this, rxPayload
      ensures rxPos <= rxPayload.Length == rxCapacity && |header| == 5
      ensures var b := old(data[i]);
              var at := if b == 0 then 0 else old(rxPos);
              Parser() == PayloadByte(old(Parser()), b, if data == rxPayload && at == i then 0 else b)
    {
      if data[i] == 0 {
        Reset();
        OnError(PayloadIncomplete);
      }
      if rxPos < rxCapacity {
        if rxNextZero == 1 {
          rxPayload[rxPos] := 0;
          rxPos := rxPos + 1;
          rxNextZero := data[i];
        } else {
          rxPayload[rxPos] := data[i];
          rxPos := rxPos + 1;
          rxNextZero := (rxNextZero + 0xFF) % 0x100;
        }
      } else {
        Reset();
        OnError(RxBufferSmall);
      }
    }

    method TakeHeaderByte(b: u8)
      requires Valid() && state.ReadHeader?
      modifies this
      ensures Valid() && Parser() == HeaderByte(old(Parser()), b)
    {
      hide Check;
      header := header[headerPos := b];
      if headerPos == 4 {
        var check := HeaderCheck(header[1..4]);
        if check != header[4] {
          state, rxPos, headerPos := HuntSync, 0, 0;
          OnError(HeaderCrcMismatch);
        }
        rxNextZero := header[3];
        state := ReadPayload;
        rxPos := 0;
      }
      headerPos := headerPos + 1;
    }

    method ProcessByte(data: array<u8>, i: nat)
      requires Valid() && i < data.Length
      modifies this, rxPayload
      ensures Valid()
      ensures Parser() == if data == rxPayload then StepShared(old(Parser()), i) else Step(old(Parser()), old(data[i]))
    {
      match state
      case HuntSync =>
        if data[i] == 0 {
          state := ReadHeader;
          headerPos := 0;
          header := header[headerPos := 0];
          headerPos := headerPos + 1;
        }
      case ReadHeader =>
        TakeHeaderByte(data[i]);
      case ReadPayload =>
        if rxPos < header[2] { PutByte(data, i); }
        if rxPos == header[2] {
          var length := rxPos;
          state, rxPos, headerPos := HuntSync, 0, 0;
          OnFrame(header[1], length);
        }
    }
  }
}
