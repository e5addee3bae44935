/**
 * Two byte rings that refine a bounded first-in first-out queue: reserve/commit in C, and partial push/pop in the
 * tool.
 */
module ByteQueues {
  import opened Words
  import opened RingFast

  /** The `n` slots from `head` on, wrapping around. */
  function Slots(buffer: seq<u8>, head: nat, n: nat): (s: seq<u8>)
    requires head < |buffer| && n <= |buffer|
    ensures |s| == n
  {
    if head + n <= |buffer| then buffer[head..head + n] else buffer[head..] + buffer[..head + n - |buffer|]
  }

  /** Moving the head over the next slots appends what they hold, as long as one slot stays free. */
  lemma ViewGrow(buffer: seq<u8>, tail: nat, head: nat, n: nat)
    requires tail < |buffer| && head < |buffer| && |View(buffer, tail, head)| + n < |buffer|
    ensures View(buffer, tail, Wrap(head + n, |buffer|)) == View(buffer, tail, head) + Slots(buffer, head, n)
  {
    var v, w, s := View(buffer, tail, head), View(buffer, tail, Wrap(head + n, |buffer|)), Slots(buffer, head, n);
    assert |w| == |v| + n;
    forall i | 0 <= i < |w|
      ensures w[i] == (v + s)[i]
    {
      ViewAt(buffer, tail, Wrap(head + n, |buffer|), i);
      if i < |v| { ViewAt(buffer, tail, head, i); }
    }
  }

  predicate InSlots(i: nat, head: nat, n: nat, capacity: nat) {
    head <= i < head + n || i + capacity < head + n
  }

  /** Writing free slots leaves the contents alone. */
  lemma ViewFrame(b: seq<u8>, b': seq<u8>, tail: nat, head: nat, n: nat)
    requires tail < |b| == |b'| && head < |b| && |View(b, tail, head)| + n < |b|
    requires forall i :: 0 <= i < |b| && !InSlots(i, head, n, |b|) ==> b'[i] == b[i]
    ensures View(b', tail, head) == View(b, tail, head)
  {
    var v, v' := View(b, tail, head), View(b', tail, head);
    forall i | 0 <= i < |v|
      ensures v[i] == v'[i]
    {
      ViewAt(b, tail, head, i);
      ViewAt(b', tail, head, i);
      assert !InSlots(Wrap(tail + i, |b|), head, n, |b|);
    }
  }

  /** Copies into one stretch that ends the buffer or suffices, and one at its start. */
  method Fill(buffer: array<u8>, start: nat, first: nat, second: nat, data: seq<u8>)
    requires first + second <= |data| && start < buffer.Length && start + first <= buffer.Length && second <= start
    requires second > 0 ==> start + first == buffer.Length
    modifies buffer
    ensures Slots(buffer[..], start, first + second) == data[..first + second]
    ensures forall i :: 0 <= i < buffer.Length && !InSlots(i, start, first + second, buffer.Length) ==>
              buffer[i] == old(buffer[i])
  {
    forall i | 0 <= i < first { buffer[start + i] := data[i]; }
    forall i | 0 <= i < second { buffer[i] := data[first + i]; }
  }

  /** Part of the first stretch, or all of it and part of the second, is a prefix of both. */
  lemma StretchPrefix(b: seq<u8>, r: Regions, n1: nat, n2: nat)
    requires r.start + r.count1 <= |b| && r.count2 <= |b|
    requires n1 <= r.count1 && n2 <= r.count2 && (n2 > 0 ==> n1 == r.count1)
    ensures var all := b[r.start..r.start + r.count1] + b[..r.count2];
            && b[r.start..r.start + n1] + b[..n2] == all[..n1 + n2]
            && b[..0] == [] && b[r.start..r.start + n1] == all[..n1]
  {
  }

  lemma SplitAt<T>(s: seq<T>, n: nat)
    requires n <= |s|
    ensures s == s[..n] + s[n..]
  {
  }

  class ByteRing {
    const buffer: array<u8>
    const capacity: u16
    var head: u16
    var tail: u16

    ghost predicate Valid()
      reads this
    {
      0 < capacity == buffer.Length && head < capacity && tail < capacity
    }

    /** What the ring holds, oldest first. */
    ghost function Contents(): seq<u8>
      requires Valid()
      reads this, buffer
    {
      View(buffer[..], tail, head)
    }

    constructor (storage: array<u8>)
      requires 0 < storage.Length <= 0xFFFF
      ensures Valid() && buffer == storage && Contents() == []
    {
      buffer, capacity, head, tail := storage, storage.Length, 0, 0;
    }

    function Size(): (n: u16)
      requires Valid()
      reads this, buffer
      ensures n == |Contents()| < capacity
    {
      if head >= tail then head - tail else capacity - tail + head
    }

    function Free(): (n: u16)
      requires Valid()
      reads this, buffer
      ensures n == capacity - 1 - |Contents()|
    {
      capacity - Size() - 1
    }

    /** The stretches to fill: in bounds, not part of the contents, and the next `count` slots in order. */
    method WriteReserve(count: u16) returns (ok: bool, r: Regions)
      requires Valid()
      ensures ok <==> |Contents()| + count < capacity
      ensures ok ==> r.start == head && r.count1 + r.count2 == count
      ensures ok ==> r.start + r.count1 <= capacity && r.count2 <= capacity
      ensures ok && r.count2 > 0 ==> r.start + r.count1 == capacity && r.count2 < tail <= head
      ensures ok && head < tail ==> r.start + r.count1 < tail
    {
      r := Regions(0, 0, 0);
      if count > Free() { return false, r; }
      var contiguous := if head >= tail then capacity - head - (if tail == 0 then 1 else 0) else tail - head - 1;
      if contiguous >= count {
        return true, Regions(head, count, 0);
      }
      return true, Regions(head, contiguous, count - contiguous);
    }

    /** Whatever was put into the next slots is now part of the contents. */
    method WriteCommit(count: u16)
      requires Valid() && |Contents()| + count < capacity
      modifies this`head
      ensures Valid() && Contents() == old(Contents()) + old(Slots(buffer[..], head, count))
    {
      ViewGrow(buffer[..], tail, head, count);
      head := (head + count) - (if head + count >= capacity then capacity else 0);
    }

    /** The stretches that hold the contents. */
    method ReadReserve() returns (ok: bool, r: Regions)
      requires Valid()
      ensures ok <==> Contents() != []
      ensures r.start + r.count1 <= capacity && r.count2 <= r.start
      ensures Contents() == buffer[r.start..r.start + r.count1] + buffer[..r.count2]
    {
      if Size() == 0 { return false, Regions(0, 0, 0); }
      var count := Size();
      var contiguous := if tail >= head then capacity - tail else head - tail;
      if contiguous >= count {
        return true, Regions(tail, count, 0);
      }
      return true, Regions(tail, contiguous, count - contiguous);
    }

    method ReadCommit(count: u16)
      requires Valid() && count <= |Contents()|
      modifies this`tail
      ensures Valid() && Contents() == old(Contents())[count..]
    {
      ViewDrop(buffer[..], tail, head, count);
      tail := (tail + count) - (if tail + count >= capacity then capacity else 0);
    }

    /**
     * Reserve, fill, commit. Both take the length in sixteen bits, so of longer data only the first bytes are written,
     * and 0 is returned although the rest is lost.
     */
    method Write(data: seq<u8>) returns (left: nat)
      requires Valid() && |data| < 0x1_0000_0000
      modifies this`head, buffer
      ensures Valid()
      ensures var n := |data| % 0x1_0000;
              var fits := |old(Contents())| + n < capacity;
              left == (if fits then 0 else |data|) && Contents() == old(Contents()) + if fits then data[..n] else []
    {
      hide View, Slots;
      var n := ToU16(|data|);
      var ok, r := WriteReserve(n);
      if !ok {
        assert Contents() + [] == Contents();
        return |data|;
      }
      ghost var before := buffer[..];
      Fill(buffer, r.start, r.count1, r.count2, data);
      ViewFrame(before, buffer[..], tail, head, n);
      WriteCommit(n);
      return 0;
    }

    /** Reads at most `length` bytes, the oldest first. */
    method Read(length: u16) returns (data: seq<u8>)
      requires Valid()
      modifies this`tail
      ensures Valid() && |data| == (if length < |old(Contents())| then length else |old(Contents())|)
      ensures old(Contents()) == data + Contents()
    {
      hide Contents;
      data := [];
      ghost var all := Contents();
      var ok, r := ReadReserve();
      if ok {
        var fromFirst := if length < r.count1 then length else r.count1;
        data := buffer[r.start..r.start + fromFirst];
        StretchPrefix(buffer[..], r, fromFirst, 0);
        if fromFirst < length && r.count2 > 0 {
          var rest := length - fromFirst;
          var fromSecond := if rest < r.count2 then rest else r.count2;
          StretchPrefix(buffer[..], r, fromFirst, fromSecond);
          data := data + buffer[..fromSecond];
        }
        SplitAt(all, |data|);
        ReadCommit(|data|);
      }
    }
  }

  /** The tool's mutex-protected ring: `head` is read from, `tail` is written to, and calls may be partial. */
  class MutexRing {
    const buf: array<u8>
    var head: nat
    var tail: nat

    ghost predicate Valid()
      reads this
    {
      0 < buf.Length && head < buf.Length && tail < buf.Length
    }

    ghost function Contents(): seq<u8>
      requires Valid()
      reads this, buf
    {
      View(buf[..], head, tail)
    }

    constructor (capacity: nat)
      ensures Valid() && Capacity() == capacity && Contents() == [] && fresh(buf)
    {
      buf := new u8[capacity + 1];
      head, tail := 0, 0;
    }

    function Capacity(): int
    {
      buf.Length - 1
    }

    function Available(): (n: nat)
      requires Valid()
      reads this, buf
      ensures n == |Contents()| <= Capacity()
    {
      UsedModulo(head, tail, buf.Length);
      (tail + buf.Length - head) % buf.Length
    }

    /** Takes as much of the data as fits. */
    method Push(data: seq<u8>) returns (n: nat)
      requires Valid()
      modifies this`tail, buf
      ensures Valid()
      ensures n == if |data| < Capacity() - |old(Contents())| then |data| else Capacity() - |old(Contents())|
      ensures Contents() == old(Contents()) + data[..n]
    {
      hide View, Slots;
      var free := Capacity() - Available();
      n := if |data| < free then |data| else free;
      var first := if n < buf.Length - tail then n else buf.Length - tail;
      var second := n - first;
      ghost var before := buf[..];
      Fill(buf, tail, first, second, data);
      ViewFrame(before, buf[..], head, tail, n);
      ViewGrow(buf[..], head, tail, n);
      WrapModulo(tail, n, buf.Length);
      tail := (tail + n) % buf.Length;
    }

    /** Gives as many of the oldest bytes as asked for and there. */
    method Pop(len: nat) returns (data: seq<u8>)
      requires Valid()
      modifies this`head
      ensures Valid() && |data| == (if len < |old(Contents())| then len else |old(Contents())|)
      ensures old(Contents()) == data + Contents()
    {
      hide View;
      var used := Available();
      var n := if len < used then len else used;
      var first := if n < buf.Length - head then n else buf.Length - head;
      var second := n - first;
      data := buf[head..head + first] + buf[..second];
      TakeSlots(buf[..], head, tail, first, second);
      SplitAt(Contents(), n);
      ViewDrop(buf[..], head, tail, n);
      WrapModulo(head, n, buf.Length);
      head := (head + n) % buf.Length;
    }
  }

  lemma TakeSlots(b: seq<u8>, from: nat, to: nat, first: nat, second: nat)
    requires from < |b| && to < |b| && from + first <= |b| && second <= |b|
    requires first + second <= |View(b, from, to)| && (second > 0 ==> from + first == |b|)
    ensures b[from..from + first] + b[..second] == View(b, from, to)[..first + second]
  {
  }

  lemma UsedModulo(head: nat, tail: nat, size: nat)
    requires head < size && tail < size
    ensures (tail + size - head) % size == if head <= tail then tail - head else tail - head + size
  {
    if head <= tail {
      ModUnique(tail + size - head, size, 1, tail - head);
    } else {
      ModUnique(tail + size - head, size, 0, tail - head + size);
    }
  }

  lemma WrapModulo(at: nat, n: nat, size: nat)
    requires at < size && n < size
    ensures (at + n) % size == Wrap(at + n, size)
  {
    ModUnique(at + n, size, if at + n < size then 0 else 1, Wrap(at + n, size));
  }
}
