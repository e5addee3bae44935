/** Identifier-length-value records: a bounded writer and a reader over the received bytes. */
module IdvRecords {
  import opened Words

  datatype Record = Record(id: u8, value: seq<u8>)

  datatype Err = Ok | BufferFull

  const UINT16_MAX := 0xFFFF

  /** A value length is one byte. */
  predicate Writable(r: Record) {
    |r.value| <= 255
  }

  predicate AllWritable(rs: seq<Record>) {
    forall i :: 0 <= i < |rs| ==> Writable(rs[i])
  }

  function Bytes(r: Record): (b: seq<u8>)
    requires Writable(r)
    ensures |b| == |r.value| + 2
  {
    [r.id, |r.value|] + r.value
  }

  function BytesAll(rs: seq<Record>): seq<u8>
    requires AllWritable(rs)
  {
    if rs == [] then [] else Bytes(rs[0]) + BytesAll(rs[1..])
  }

  /** The complete records at the front of `b`. */
  function Parse(b: seq<u8>): (rs: seq<Record>)
    ensures AllWritable(rs)
  {
    if |b| < 2 || 2 + b[1] > |b| then []
    else [Record(b[0], b[2..2 + b[1]])] + Parse(b[2 + b[1]..])
  }

  /** What a buffer of `capacity` bytes takes of the records written to it one after the other. */
  function Packed(capacity: nat, rs: seq<Record>): (b: seq<u8>)
    requires AllWritable(rs)
    ensures |b| <= capacity
  {
    if rs == [] then []
    else
      var p, r := Packed(capacity, rs[..|rs| - 1]), rs[|rs| - 1];
      if |p| + |r.value| + 2 > capacity then p else p + Bytes(r)
  }

  lemma BytesCons(r: Record, rs: seq<Record>)
    requires Writable(r) && AllWritable(rs)
    ensures AllWritable([r] + rs) && BytesAll([r] + rs) == Bytes(r) + BytesAll(rs)
  {
    assert ([r] + rs)[1..] == rs;
  }

  lemma {:induction false} BytesAppend(rs: seq<Record>, r: Record)
    requires AllWritable(rs) && Writable(r)
    ensures BytesAll(rs + [r]) == BytesAll(rs) + Bytes(r)
  {
    if rs == [] {
      assert rs + [r] == [r];
      assert BytesAll([r]) == Bytes(r) + BytesAll([]);
    } else {
      assert (rs + [r])[1..] == rs[1..] + [r];
      BytesAppend(rs[1..], r);
    }
  }

  /** Records that fit together are all taken; otherwise the first ones that do not fit are skipped. */
  lemma {:induction false} PackedFits(capacity: nat, rs: seq<Record>)
    requires AllWritable(rs) && |BytesAll(rs)| <= capacity
    ensures Packed(capacity, rs) == BytesAll(rs)
  {
    if rs != [] {
      var n := |rs| - 1;
      assert rs == rs[..n] + [rs[n]];
      BytesAppend(rs[..n], rs[n]);
      PackedFits(capacity, rs[..n]);
    }
  }

  lemma ParseFirst(r: Record, rest: seq<u8>)
    requires Writable(r)
    ensures Parse(Bytes(r) + rest) == [r] + Parse(rest)
  {
    var b := Bytes(r) + rest;
    assert b[2..2 + b[1]] == r.value && b[2 + b[1]..] == rest;
  }

  lemma ParseTooShort(r: Record, rest: seq<u8>, n: nat)
    requires Writable(r) && n < |Bytes(r)|
    ensures Parse((Bytes(r) + rest)[..n]) == []
  {
  }

  /** Reading back gives the records that were written, also when the bytes are cut off: then the complete ones. */
  lemma {:induction false} ReadBack(rs: seq<Record>, n: nat)
    requires AllWritable(rs) && n <= |BytesAll(rs)|
    ensures var k := |Parse(BytesAll(rs)[..n])|;
            && k <= |rs| && Parse(BytesAll(rs)[..n]) == rs[..k]
            && |BytesAll(rs[..k])| <= n
            && (k < |rs| ==> n < |BytesAll(rs[..k + 1])|)
  {
    if rs == [] {
    } else {
      hide Parse;
      var b, first := BytesAll(rs)[..n], Bytes(rs[0]);
      if n < |first| {
        ParseTooShort(rs[0], BytesAll(rs[1..]), n);
        assert BytesAll(rs[..1]) == first by { assert rs[..1][1..] == []; }
      } else {
        hide Bytes;
        ReadBack(rs[1..], n - |first|);
        assert b == first + BytesAll(rs[1..])[..n - |first|];
        ParseFirst(rs[0], b[|first|..]);
        var k := |Parse(b)|;
        assert rs[..k][1..] == rs[1..][..k - 1];
        if k < |rs| { assert rs[..k + 1][1..] == rs[1..][..k]; }
      }
    }
  }

  lemma ReadAllBack(rs: seq<Record>)
    requires AllWritable(rs)
    ensures Parse(BytesAll(rs)) == rs
  {
    ReadBack(rs, |BytesAll(rs)|);
    assert BytesAll(rs)[..|BytesAll(rs)|] == BytesAll(rs);
    var k := |Parse(BytesAll(rs))|;
    if k < |rs| { PrefixShorter(rs, k + 1); }
  }

  lemma {:induction false} PrefixShorter(rs: seq<Record>, k: nat)
    requires AllWritable(rs) && k <= |rs|
    ensures |BytesAll(rs[..k])| <= |BytesAll(rs)|
  {
    if k > 0 {
      assert rs[..k][1..] == rs[1..][..k - 1];
      PrefixShorter(rs[1..], k - 1);
    }
  }

  lemma ParseNone(b: seq<u8>)
    requires |b| < 2 || 2 + b[1] > |b|
    ensures Parse(b) == []
  {
  }

  lemma ParseSome(b: seq<u8>, v: seq<u8>, rest: seq<u8>)
    requires |b| >= 2 && |b| == 2 + b[1] + |rest| && |v| == b[1] && b[2..] == v + rest
    ensures Parse(b) == [Record(b[0], v)] + Parse(rest)
  {
    assert b[2..2 + b[1]] == b[2..][..|v|] == v && b[2 + b[1]..] == b[2..][|v|..] == rest;
  }

  class Writer {
    const buf: array<u8>
    var idx: u16

    ghost predicate Valid()
      reads this
    {
      idx <= buf.Length <= UINT16_MAX
    }

    ghost function Written(): seq<u8>
      requires Valid()
      reads this, buf
    {
      buf[..idx]
    }

    constructor (buffer: array<u8>)
      requires buffer.Length <= UINT16_MAX
      ensures Valid() && buf == buffer && Written() == []
    {
      buf, idx := buffer, 0;
    }

    method Reset()
      requires Valid()
      modifies this
      ensures Valid() && Written() == []
    {
      idx := 0;
    }

    /** Appends a whole record or, when it does not fit, nothing. */
    method Add(id: u8, value: seq<u8>) returns (err: Err)
      requires Valid() && |value| <= 255
      modifies this, buf
      ensures Valid()
      ensures err == if |old(Written())| + |value| + 2 > buf.Length then BufferFull else Ok
      ensures Written() == if err == Ok then old(Written()) + ([id, |value|] + value) else old(Written())
    {
      if idx + |value| + 2 > buf.Length { return BufferFull; }
      ghost var before := Written();
      buf[idx] := id;
      buf[idx + 1] := |value|;
      var start := idx + 2;
      for i := 0 to |value|
        invariant buf[..start + i] == before + [id, |value|] + value[..i]
      {
        buf[start + i] := value[i];
      }
      idx := start + |value|;
      assert value[..|value|] == value;
      return Ok;
    }
  }

  class Reader {
    const buf: array<u8>
    var idx: u16
    var id: u8
    var len: u8
    /** Where the current value starts. */
    var value: nat
    /** Whether the last call of `Next` found a record. */
    ghost var found: bool

    ghost predicate Valid()
      reads this
    {
      && buf.Length <= UINT16_MAX && (idx <= buf.Length || idx == UINT16_MAX)
      && (found ==> value + len <= buf.Length)
    }

    /** The records still to be read. */
    ghost function Rest(): seq<Record>
      requires Valid()
      reads this, buf
    {
      if idx == UINT16_MAX then [] else Parse(buf[idx..])
    }

    ghost function Current(): Record
      requires Valid() && found
      reads this, buf
    {
      Record(id, buf[value..value + len])
    }

    constructor (buffer: array<u8>)
      requires buffer.Length <= UINT16_MAX
      ensures Valid() && buf == buffer && Rest() == Parse(buffer[..])
    {
      buf, idx, id, len, value, found := buffer, 0, 0, 0, 0, false;
      new;
      assert buffer[0..] == buffer[..];
    }

    method Reset()
      requires Valid()
      modifies this
      ensures Valid() && Rest() == Parse(buf[..])
    {
      idx := 0;
      assert buf[0..] == buf[..];
    }

    /** Moves to the next complete record, if there is one. */
    method Next() returns (ok: bool)
      requires Valid()
      modifies this
      ensures Valid() && found == ok == (old(Rest()) != [])
      ensures ok ==> Current() == old(Rest())[0] && Rest() == old(Rest())[1..]
      ensures !ok ==> Rest() == []
    {
      hide Parse;
      found := false;
      if idx == UINT16_MAX { return false; }
      ghost var b := buf[idx..];
      if idx + 2 > buf.Length {
        ParseNone(b);
        ParseNone([]);
        assert idx != UINT16_MAX ==> buf[idx..] == b;
        return false;
      }
      id := buf[idx];
      len := buf[idx + 1];
      idx := idx + 2;
      if idx + len > buf.Length {
        ParseNone(b);
        idx := UINT16_MAX;
        return false;
      }
      value := idx;
      idx := idx + len;
      found := true;
      assert b[2..] == buf[value..idx] + buf[idx..];
      ParseSome(b, buf[value..idx], buf[idx..]);
      if idx == UINT16_MAX { ParseNone(buf[idx..]); }
      return true;
    }

    /** The value as one byte, if it is one byte long. */
    method AsByte(was: u8) returns (v: u8)
      requires Valid() && found
      ensures v == if |Current().value| == 1 then Current().value[0] else was
    {
      v := if len == 1 then buf[value] else was;
    }

    method AsBinary() returns (b: seq<u8>)
      requires Valid() && found
      ensures b == Current().value
    {
      b := buf[value..value + len];
    }
  }
}
