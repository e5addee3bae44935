/** The scope as an object over one flat buffer, row after row. */
module ScopeStream {
  import opened Words
  import opened Scope

  lemma RowBounds(i: nat, j: nat, channels: nat)
    requires i < j
    ensures 0 <= i * channels && (i + 1) * channels == i * channels + channels <= j * channels
  {
    assert j * channels - (i + 1) * channels == (j - i - 1) * channels;
  }

  function Row(b: seq<int>, channels: nat, depth: nat, i: nat): (row: Vector)
    requires |b| == depth * channels && i < depth
    ensures |row| == channels
  {
    RowBounds(i, depth, channels);
    b[i * channels..i * channels + channels]
  }

  /** The rows of a flat buffer. */
  function Rows(b: seq<int>, channels: nat, depth: nat): (rows: seq<Vector>)
    requires |b| == depth * channels
    ensures |rows| == depth
  {
    seq(depth, i requires 0 <= i < depth => Row(b, channels, depth, i))
  }

  lemma RowsUpdate(b: seq<int>, b': seq<int>, channels: nat, depth: nat, w: nat, v: Vector)
    requires |b| == |b'| == depth * channels && w < depth && |v| == channels
    requires forall k :: 0 <= k < |b| && !(w * channels <= k < w * channels + channels) ==> b'[k] == b[k]
    requires Row(b', channels, depth, w) == v
    ensures Rows(b', channels, depth) == Rows(b, channels, depth)[w := v]
  {
    forall i | 0 <= i < depth && i != w
      ensures Row(b', channels, depth, i) == Row(b, channels, depth, i)
    {
      if i < w { RowBounds(i, w, channels); } else { RowBounds(w, i, channels); }
      RowBounds(i, depth, channels);
    }
  }

  class ScopeStream {
    const buf: array<int>
    const channels: nat
    const depth: nat
    var triggerLevel: int
    var hysteresisLevel: int
    var hystTrig: bool
    var decimation: u8
    var decimationCounter: u8
    var writeIdx: u16
    var triggered: bool
    var frozen: bool

    ghost function Configuration(): Config
      reads this
    {
      Config(channels, depth, decimation, triggerLevel, hysteresisLevel)
    }

    ghost function Contents(): State
      requires buf.Length == depth * channels
      reads this, buf
    {
      State(decimationCounter, writeIdx, triggered, hystTrig, frozen, Rows(buf[..], channels, depth))
    }

    ghost predicate Valid()
      reads this, buf
    {
      buf.Length == depth * channels && IsConfig(Configuration()) && Fits(Configuration(), Contents())
    }

    /** The firmware leaves the hysteresis and its flag as the memory was; here they are arguments. */
    constructor (storage: array<int>, channels: nat, depth: nat, hysteresis: int, flag: bool)
      requires 0 < channels && 0 < depth && storage.Length == depth * channels
      ensures Valid() && buf == storage && Configuration() == Config(channels, depth, 1, 0, hysteresis)
      ensures Contents() == State(1, 0, false, flag, false, Rows(storage[..], channels, depth))
    {
      buf, this.channels, this.depth := storage, channels, depth;
      decimation, decimationCounter := 1, 1;
      triggerLevel, hysteresisLevel, hystTrig := 0, hysteresis, flag;
      writeIdx, triggered, frozen := 0, false, false;
    }

    method StoreRow(w: nat, data: Vector)
      requires buf.Length == depth * channels && w < depth && |data| == channels
      modifies buf
      ensures Rows(buf[..], channels, depth) == old(Rows(buf[..], channels, depth))[w := data]
    {
      RowBounds(w, depth, channels);
      ghost var before := buf[..];
      var at := w * channels;
      forall j | 0 <= j < channels { buf[at + j] := data[j]; }
      assert Row(buf[..], channels, depth, w) == data;
      RowsUpdate(before, buf[..], channels, depth, w, data);
    }

    method Write(data: Vector)
      requires Valid() && |data| == channels
      modifies this, buf
      ensures Valid() && Configuration() == old(Configuration())
      ensures Contents() == Scope.Write(old(Configuration()), old(Contents()), data)
    {
      hide Rows;
      if !frozen {
        decimationCounter := (decimationCounter + 0xFF) % 0x100;
        if decimationCounter > 0 { return; }
        decimationCounter := decimation;
        if !triggered {
          if data[0] > triggerLevel + hysteresisLevel && !hystTrig {
            hystTrig := true;
            triggered := true;
            writeIdx := 0;
          } else if data[0] < triggerLevel - hysteresisLevel && hystTrig {
            hystTrig := false;
          }
        }
        if triggered {
          StoreRow(writeIdx, data);
          writeIdx := (writeIdx + 1) % 0x1_0000;
          if writeIdx >= depth { frozen := true; }
        }
      }
    }

    /** Copies the whole capture once it is complete, if the caller's buffer takes it. */
    method Read(bufferSize: u16, elementSize: nat) returns (ok: bool, out: seq<int>)
      requires Valid()
      ensures ok <==> frozen && bufferSize >= depth * channels * elementSize
      ensures ok ==> |out| == depth * channels && Rows(out, channels, depth) == Contents().rows
    {
      if !frozen { return false, []; }
      if bufferSize < depth * channels * elementSize { return false, []; }
      return true, buf[..];
    }

    /** Copies one channel of the capture. */
    method ReadChannel(channel: nat, bufferSize: u16, elementSize: nat) returns (ok: bool, out: seq<int>)
      requires Valid() && channel < channels
      ensures ok <==> frozen && bufferSize >= depth * elementSize
      ensures ok ==> |out| == depth && forall i :: 0 <= i < depth ==> out[i] == Contents().rows[i][channel]
    {
      out := [];
      if !frozen { return false, out; }
      if bufferSize < depth * elementSize { return false, out; }
      for i := 0 to depth
        invariant |out| == i && forall k :: 0 <= k < i ==> out[k] == Contents().rows[k][channel]
      {
        RowBounds(i, depth, channels);
        out := out + [buf[i * channels + channel]];
      }
      ok := true;
    }

    method Reset()
      requires Valid()
      modifies this
      ensures Valid() && Configuration() == old(Configuration())
      ensures Contents() == Scope.Reset(old(Configuration()), old(Contents()))
    {
      writeIdx := 0;
      triggered := false;
      frozen := false;
      decimationCounter := decimation;
    }
  }
}
