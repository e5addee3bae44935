/** The power-of-two ring `el::ring_fast` shared by an interrupt and a task. */
module RingFast {
  import opened Words

  /** Index `i` brought back into a ring of `capacity` slots. */
  function Wrap(i: nat, capacity: nat): nat {
    if i < capacity then i else i - capacity
  }

  /** How many slots `idx` comes after `tail`; indices count modulo the capacity, so -1 is the last slot. */
  function Behind(idx: int, tail: nat, capacity: nat): (d: nat)
    requires tail < capacity
    ensures d < capacity && (0 <= idx < capacity ==> Wrap(tail + d, capacity) == idx)
  {
    BehindWraps(idx, tail, capacity);
    (idx - tail) % capacity
  }

  lemma BehindWraps(idx: int, tail: nat, capacity: nat)
    requires tail < capacity
    ensures 0 <= idx < capacity ==> (idx - tail) % capacity == if idx >= tail then idx - tail else idx - tail + capacity
  {
    if 0 <= idx < capacity {
      if idx >= tail {
        ModUnique(idx - tail, capacity, 0, idx - tail);
      } else {
        ModUnique(idx - tail, capacity, -1, idx - tail + capacity);
      }
    }
  }

  /** The elements a ring holds, oldest first. */
  function View<T>(buffer: seq<T>, tail: nat, head: nat): (s: seq<T>)
    requires tail < |buffer| && head < |buffer|
    ensures |s| == (if tail <= head then head - tail else head - tail + |buffer|)
  {
    if tail <= head then buffer[tail..head] else buffer[tail..] + buffer[..head]
  }

  lemma ViewAt<T>(buffer: seq<T>, tail: nat, head: nat, i: nat)
    requires tail < |buffer| && head < |buffer| && i < |View(buffer, tail, head)|
    ensures View(buffer, tail, head)[i] == buffer[Wrap(tail + i, |buffer|)]
  {
  }

  /**
   * Storing at the head and advancing it appends, as long as one slot stays free; otherwise the ring reads as empty.
   */
  lemma ViewPush<T>(buffer: seq<T>, tail: nat, head: nat, x: T)
    requires tail < |buffer| && head < |buffer|
    ensures var next := Wrap(head + 1, |buffer|);
            View(buffer[head := x], tail, next)
            == if |View(buffer, tail, head)| + 1 == |buffer| then [] else View(buffer, tail, head) + [x]
  {
    var next := Wrap(head + 1, |buffer|);
    var old', new' := View(buffer, tail, head), View(buffer[head := x], tail, next);
    if |old'| + 1 != |buffer| {
      assert |new'| == |old'| + 1;
      forall i | 0 <= i < |new'|
        ensures new'[i] == (old' + [x])[i]
      {
        ViewAt(buffer[head := x], tail, next, i);
        if i < |old'| { ViewAt(buffer, tail, head, i); }
      }
    }
  }

  lemma ViewFirst<T>(buffer: seq<T>, tail: nat, head: nat)
    requires tail < |buffer| && head < |buffer|
    ensures View(buffer, tail, head) == [] <==> head == tail
    ensures head != tail ==> View(buffer, tail, head) == [buffer[tail]] + View(buffer, tail, head)[1..]
  {
  }

  lemma ViewDrop<T>(buffer: seq<T>, tail: nat, head: nat, n: nat)
    requires tail < |buffer| && head < |buffer| && n <= |View(buffer, tail, head)|
    ensures View(buffer, Wrap(tail + n, |buffer|), head) == View(buffer, tail, head)[n..]
  {
    var v, w := View(buffer, tail, head), View(buffer, Wrap(tail + n, |buffer|), head);
    forall i | 0 <= i < |w|
      ensures w[i] == v[n..][i]
    {
      ViewAt(buffer, tail, head, n + i);
      ViewAt(buffer, Wrap(tail + n, |buffer|), head, i);
    }
  }

  /** Up to two contiguous stretches of the buffer: `first.0..first.0 + first.1`, then `0..second`. */
  datatype Regions = Regions(start: nat, count1: nat, count2: nat)

  class Ring<T> {
    const capacity: u16
    const buffer: array<T>
    var head: u16
    var tail: u16
    /** What the ring holds, oldest first. */
    ghost var contents: seq<T>

    ghost predicate Valid()
      reads this, buffer
    {
      && buffer.Length == capacity
      && 0 < capacity <= 0x8000
      && IsPow2(capacity)
      && head < capacity
      && tail < capacity
      && contents == View(buffer[..], tail, head)
    }

    constructor (buffer: array<T>)
      requires 0 < buffer.Length <= 0x8000 && BitAnd(buffer.Length, buffer.Length - 1) == 0
      ensures Valid() && this.buffer == buffer && capacity == buffer.Length
      ensures contents == [] && head == 0
    {
      this.buffer := buffer;
      capacity := buffer.Length;
      head, tail := 0, 0;
      contents := [];
      PowerOfTwoTest(buffer.Length);
    }

    function Size(): (n: u16)
      requires Valid()
      reads this, buffer
      ensures n == |contents| < capacity && tail < capacity
    {
      MaskWraps(head - tail, capacity);
      Mask(head - tail, capacity - 1)
    }

    function Free(): (n: u16)
      requires Valid()
      reads this, buffer
      ensures n == capacity - 1 - |contents|
    {
      capacity - 1 - Size()
    }

    method Clear()
      requires Valid()
      modifies this
      ensures Valid() && contents == [] && head == 0
    {
      head := 0;
      tail := 0;
      contents := [];
    }

    method Push(item: T) returns (ok: bool)
      requires Valid()
      modifies this, buffer
      ensures Valid()
      ensures ok <==> |old(contents)| + 1 < capacity
      ensures contents == if ok then old(contents) + [item] else old(contents)
      ensures tail == old(tail)
    {
      hide IsPow2, Mask, View;
      MaskWraps(head + 1, capacity);
      ViewPush(buffer[..], tail, head, item);
      var next := Mask(head + 1, capacity - 1);
      if next == tail {
        return false;
      }
      buffer[head] := item;
      head := next;
      contents := contents + [item];
      ok := true;
    }

    /** Stores without asking whether there is room; on a full ring the head laps the tail and everything is lost. */
    method PushFast(item: T)
      requires Valid()
      modifies this, buffer
      ensures Valid()
      ensures contents == if |old(contents)| + 1 < capacity then old(contents) + [item] else []
      ensures tail == old(tail) && head == Wrap(old(head) + 1, capacity)
    {
      MaskWraps(head + 1, capacity);
      ViewPush(buffer[..], tail, head, item);
      buffer[head] := item;
      head := Mask(head + 1, capacity - 1);
      contents := if |contents| + 1 < capacity then contents + [item] else [];
    }

    method Pop() returns (ok: bool, item: T)
      requires Valid()
      modifies this
      ensures Valid() && head == old(head)
      ensures ok <==> old(contents) != []
      ensures ok ==> old(contents) == [item] + contents
      ensures !ok ==> contents == old(contents)
    {
      hide IsPow2, Mask, View;
      item := buffer[tail];
      ViewFirst(buffer[..], tail, head);
      if head == tail {
        return false, item;
      }
      MaskWraps(tail + 1, capacity);
      ViewDrop(buffer[..], tail, head, 1);
      tail := Mask(tail + 1, capacity - 1);
      contents := contents[1..];
      ok := true;
    }

    method Peek() returns (ok: bool, item: T)
      requires Valid()
      ensures ok <==> contents != []
      ensures ok ==> item == contents[0]
    {
      ok, item := head != tail, buffer[tail];
    }

    method Advance(n: u16) returns (ok: bool)
      requires Valid()
      modifies this
      ensures Valid() && head == old(head)
      ensures ok <==> n <= |old(contents)|
      ensures contents == if ok then old(contents)[n..] else old(contents)
    {
      if n > Size() {
        return false;
      }
      ReadCommit(n);
      ok := true;
    }

    /** How far slot `idx` lies behind the oldest element; refused when the slot is not part of the contents. */
    method DistanceFromTail(idx: i16) returns (ok: bool, distance: u16)
      requires Valid()
      ensures ok <==> idx < capacity && Behind(idx, tail, capacity) < |contents|
      ensures ok ==> distance == Behind(idx, tail, capacity)
    {
      if idx >= capacity {
        return false, 0;
      }
      MaskIsRemainder(idx - tail, capacity);
      var d := Mask(idx - tail, capacity - 1);
      if d >= Size() {
        return false, 0;
      }
      return true, d;
    }

    /** The stretches of the buffer that hold the contents. */
    method ReadReserve() returns (ok: bool, r: Regions)
      requires Valid()
      ensures ok <==> contents != []
      ensures r.start + r.count1 <= capacity && r.count2 <= r.start
      ensures contents == buffer[r.start..r.start + r.count1] + buffer[..r.count2]
    {
      var count := Size();
      if count == 0 {
        return false, Regions(0, 0, 0);
      }
      var contiguous := if tail >= head then capacity - tail else head - tail;
      if contiguous >= count {
        return true, Regions(tail, count, 0);
      }
      return true, Regions(tail, contiguous, count - contiguous);
    }

    method ReadCommit(count: u16)
      requires Valid() && count <= |contents|
      modifies this
      ensures Valid() && head == old(head) && tail == Wrap(old(tail) + count, capacity)
      ensures contents == old(contents)[count..]
    {
      MaskWraps(tail + count, capacity);
      ViewDrop(buffer[..], tail, head, count);
      tail := Mask(tail + count, capacity - 1);
      contents := contents[count..];
    }
  }
}
