/**
 * One producer and one consumer on `el::ring_fast`, with each push and pop cut into its three accesses: test of the
 * other side's index, access to the slot, publication of the own index.
 */
module RingSteps {
  import opened Words
  import opened RingFast

  datatype Producer<T> = PIdle | PTested(item: T) | PStored(item: T)

  datatype Consumer<T> = CIdle | CTested | CTaken(item: T)

  /** `pushed` and `popped` are the items of the completed calls. */
  datatype Shared<T> = Shared(buffer: seq<T>, head: nat, tail: nat, producer: Producer<T>, consumer: Consumer<T>,
                              pushed: seq<T>, popped: seq<T>)

  datatype Step<T> = PushTest(item: T) | PushStore | PushPublish | PopTest | PopRead | PopPublish

  ghost predicate Sized<T>(s: Shared<T>) {
    IsPow2(|s.buffer|) && 0 < |s.buffer| <= 0x8000 && s.head < |s.buffer| && s.tail < |s.buffer|
  }

  /** The index after `i`, as the firmware masks it. */
  function After(i: nat, capacity: nat): nat
    requires 0 < capacity
  {
    Mask(i + 1, capacity - 1)
  }

  lemma AfterIsWrap(i: nat, capacity: nat)
    requires IsPow2(capacity) && 0 < capacity <= 0x8000 && i < capacity
    ensures After(i, capacity) == Wrap(i + 1, capacity)
  {
    MaskWraps(i + 1, capacity);
  }

  /**
   * A step of either side; a step that is not next for its side, or that finds the ring full or empty, changes
   * nothing.
   */
  function Next<T>(s: Shared<T>, step: Step<T>): Shared<T>
    requires 0 < |s.buffer| && s.head < |s.buffer| && s.tail < |s.buffer|
  {
    match step
    case PushTest(x) =>
      if s.producer.PIdle? && After(s.head, |s.buffer|) != s.tail then s.(producer := PTested(x)) else s
    case PushStore =>
      if s.producer.PTested? then
        s.(buffer := s.buffer[s.head := s.producer.item], producer := PStored(s.producer.item))
      else s
    case PushPublish =>
      if s.producer.PStored? then
        s.(head := After(s.head, |s.buffer|), producer := PIdle, pushed := s.pushed + [s.producer.item])
      else s
    case PopTest =>
      if s.consumer.CIdle? && s.head != s.tail then s.(consumer := CTested) else s
    case PopRead =>
      if s.consumer.CTested? then s.(consumer := CTaken(s.buffer[s.tail])) else s
    case PopPublish =>
      if s.consumer.CTaken? then
        s.(tail := After(s.tail, |s.buffer|), consumer := CIdle, popped := s.popped + [s.consumer.item])
      else s
  }

  ghost predicate Inv<T>(s: Shared<T>) {
    && Sized(s)
    && var held := View(s.buffer, s.tail, s.head);
       && s.pushed == s.popped + held
       && (!s.producer.PIdle? ==> |held| + 1 < |s.buffer|)
       && (s.producer.PStored? ==> s.buffer[s.head] == s.producer.item)
       && (!s.consumer.CIdle? ==> held != [])
       && (s.consumer.CTaken? ==> s.consumer.item == held[0])
  }

  lemma StoreIsOutside<T>(buffer: seq<T>, tail: nat, head: nat, x: T)
    requires tail < |buffer| && head < |buffer|
    ensures View(buffer[head := x], tail, head) == View(buffer, tail, head)
  {
  }

  lemma PublishPush<T>(s: Shared<T>)
    requires Inv(s) && s.producer.PStored?
    ensures Inv(Next(s, PushPublish))
  {
    AfterIsWrap(s.head, |s.buffer|);
    var held, x := View(s.buffer, s.tail, s.head), s.producer.item;
    ViewPush(s.buffer, s.tail, s.head, x);
    assert s.buffer[s.head := x] == s.buffer;
    hide After, View, IsPow2, Wrap;
    assert s.popped + held + [x] == s.popped + (held + [x]);
  }

  lemma PublishPop<T>(s: Shared<T>)
    requires Inv(s) && s.consumer.CTaken?
    ensures Inv(Next(s, PopPublish))
  {
    AfterIsWrap(s.tail, |s.buffer|);
    var held := View(s.buffer, s.tail, s.head);
    ViewDrop(s.buffer, s.tail, s.head, 1);
    hide After, View, IsPow2, Wrap;
    assert s.popped + [held[0]] + held[1..] == s.popped + held;
  }

  lemma StartPush<T>(s: Shared<T>, x: T)
    requires Inv(s)
    ensures Inv(Next(s, PushTest(x)))
  {
    AfterIsWrap(s.head, |s.buffer|);
    hide After, IsPow2;
  }

  lemma StepKeeps<T>(s: Shared<T>, step: Step<T>)
    requires Inv(s)
    ensures Inv(Next(s, step))
  {
    hide After, IsPow2, Mask;
    match step
    case PushTest(x) => StartPush(s, x);
    case PushStore => if s.producer.PTested? { StoreIsOutside(s.buffer, s.tail, s.head, s.producer.item); }
    case PushPublish => if s.producer.PStored? { PublishPush(s); }
    case PopTest =>
    case PopRead => if s.consumer.CTested? { ViewAt(s.buffer, s.tail, s.head, 0); }
    case PopPublish => if s.consumer.CTaken? { PublishPop(s); }
  }

  /**
   * No step is held up without need: a push passes its test exactly while a slot besides the spare one is free, a pop
   * exactly while something is there; and items come out in the order in which they went in.
   */
  lemma StepOutcome<T>(s: Shared<T>, x: T)
    requires Inv(s)
    ensures s.producer.PIdle? ==>
              Next(s, PushTest(x)).producer == if |s.pushed| - |s.popped| + 1 < |s.buffer| then PTested(x) else PIdle
    ensures s.producer.PTested? ==> Next(s, PushStore).producer == PStored(s.producer.item)
    ensures s.producer.PStored? ==>
              Next(s, PushPublish).producer.PIdle? && Next(s, PushPublish).pushed == s.pushed + [s.producer.item]
    ensures s.consumer.CIdle? ==>
              Next(s, PopTest).consumer == if |s.popped| < |s.pushed| then CTested else CIdle
    ensures s.consumer.CTested? ==>
              |s.popped| < |s.pushed| && Next(s, PopRead).consumer == CTaken(s.pushed[|s.popped|])
    ensures s.consumer.CTaken? ==>
              && |s.popped| < |s.pushed| && s.consumer.item == s.pushed[|s.popped|]
              && Next(s, PopPublish).consumer.CIdle? && Next(s, PopPublish).popped == s.popped + [s.consumer.item]
  {
    AfterIsWrap(s.head, |s.buffer|);
    if s.consumer.CTested? { ViewAt(s.buffer, s.tail, s.head, 0); }
    hide After, IsPow2, Mask;
  }

  /** Any interleaving of the two sides. */
  ghost function Run<T>(s: Shared<T>, steps: seq<Step<T>>): (t: Shared<T>)
    requires Inv(s)
    ensures Inv(t)
  {
    if steps == [] then s
    else
      var t := Run(s, steps[..|steps| - 1]);
      StepKeeps(t, steps[|steps| - 1]);
      Next(t, steps[|steps| - 1])
  }

  function Empty<T>(buffer: seq<T>): Shared<T> {
    Shared(buffer, 0, 0, PIdle, CIdle, [], [])
  }

  /**
   * After any interleaving from an empty ring: what was popped, with the item just read, is a prefix of what was
   * pushed, and the slot the producer is about to write is not the one the consumer is about to read.
   */
  lemma SafeInterleaving<T>(buffer: seq<T>, steps: seq<Step<T>>)
    requires 0 < |buffer| <= 0x8000 && BitAnd(|buffer|, |buffer| - 1) == 0
    ensures Inv(Empty(buffer))
    ensures var s := Run(Empty(buffer), steps);
            && s.popped + (if s.consumer.CTaken? then [s.consumer.item] else []) <= s.pushed
            && |s.pushed| - |s.popped| < |buffer|
            && (s.producer.PTested? && s.consumer.CTested? ==> s.head != s.tail)
  {
    PowerOfTwoTest(|buffer|);
    assert Inv(Empty(buffer));
    hide Inv, Run;
    var s := Run(Empty(buffer), steps);
    RunKeepsSize(Empty(buffer), steps);
    InvMeaning(s);
  }

  lemma InvMeaning<T>(s: Shared<T>)
    requires Inv(s)
    ensures s.popped + (if s.consumer.CTaken? then [s.consumer.item] else []) <= s.pushed
    ensures |s.pushed| - |s.popped| < |s.buffer|
    ensures s.producer.PTested? && s.consumer.CTested? ==> s.head != s.tail
  {
  }

  lemma {:induction false} RunKeepsSize<T>(s: Shared<T>, steps: seq<Step<T>>)
    requires Inv(s)
    ensures |Run(s, steps).buffer| == |s.buffer|
  {
    hide Next, Inv;
    if steps == [] {
    } else {
      RunKeepsSize(s, steps[..|steps| - 1]);
      NextKeepsSize(Run(s, steps[..|steps| - 1]), steps[|steps| - 1]);
    }
  }

  lemma NextKeepsSize<T>(s: Shared<T>, step: Step<T>)
    requires Inv(s)
    ensures 0 < |s.buffer| && s.head < |s.buffer| && s.tail < |s.buffer|
    ensures |Next(s, step).buffer| == |s.buffer|
  {
    hide After, IsPow2, View;
  }
}
