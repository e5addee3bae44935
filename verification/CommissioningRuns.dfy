/** Whole runs of the two loops: the fall-through switch follows the intended cycle, and what each result is made of. */
module CommissioningRuns {
  import opened Commissioning
  import opened Words

  /** The states in which falling through does more than the intended cycle. */
  predicate Overruns(m: Machine) {
    && m.counter == 0
    && ((m.stage.Ld? && m.sub.SettleWait? && Due(m)) || (m.stage.Rest0? && m.sub.Sampling?))
  }

  /** The fall-through switch is the intended cycle except where it would compute Lq too early. */
  lemma SlowIsCleanIff(m: Machine, v: Injection)
    ensures Slow(m, v) == CleanSlow(m, v) <==> !Overruns(m)
  {
    hide ToI64;
    if m.stage.Ld? && m.sub.Sampling? && m.counter == 0 {
      assert !Due(Begin(LdSlow(m), Rest0));
    }
    if m.stage.Ld? && m.sub.SettleStart? {
      assert !Due(LdSlow(m));
    }
    if Overruns(m) { assert Slow(m, v).stage.Rs? && !CleanSlow(m, v).stage.Rs?; }
  }

  // ---------- What a trace must look like ----------

  /** What a sample adds to the two accumulators. */
  function Part0(n: Note): int
    requires n.Sample?
  {
    match n.stage
    case Rs => n.input.id
    case Lq => Q31(n.input.iq, n.input.sin)
    case _ => Q31(n.input.id, n.input.sin)
  }

  function Part1(n: Note): int
    requires n.Sample?
  {
    match n.stage
    case Rs => 0
    case Lq => Q31(n.input.iq, n.input.cos)
    case _ => Q31(n.input.id, n.input.cos)
  }

  predicate AllSamples(ns: seq<Note>) {
    forall i :: 0 <= i < |ns| ==> ns[i].Sample?
  }

  function Sum0(ns: seq<Note>): int
    requires AllSamples(ns)
  {
    if ns == [] then 0 else Sum0(ns[..|ns| - 1]) + Part0(ns[|ns| - 1])
  }

  function Sum1(ns: seq<Note>): int
    requires AllSamples(ns)
  {
    if ns == [] then 0 else Sum1(ns[..|ns| - 1]) + Part1(ns[|ns| - 1])
  }

  /** The voltage the stage injects while it samples. */
  predicate OwnVoltage(n: Note, v: Injection)
    requires n.Sample?
  {
    match n.stage
    case Rs => n.ecd == v.dc && n.ecq == 0
    case Ld => n.ecd == Q31(v.hf, n.input.sin) && n.ecq == 0
    case Lq => n.ecd == 0 && n.ecq == Q31(v.hf, n.input.sin)
    case _ => false
  }

  /** A sample of `stage` under its own voltage, more than the settling time after `start`. */
  predicate Settled(n: Note, stage: Stage, start: nat, v: Injection) {
    n.Sample? && n.stage == stage && n.time > start + SETTLE_MIN_TICKS && OwnVoltage(n, v)
  }

  predicate AllSettled(ns: seq<Note>, stage: Stage, start: nat, v: Injection) {
    forall i :: 0 <= i < |ns| ==> Settled(ns[i], stage, start, v)
  }

  /** A result is made of exactly 32768 samples, taken since its stage began to settle. */
  predicate Justified(trace: seq<Note>, i: nat, v: Injection)
    requires i < |trace|
  {
    trace[i].Computed? ==>
      var lo := i - OVERSAMPLE;
      && 1 <= lo && trace[lo - 1].Settle? && trace[lo - 1].stage == trace[i].stage
      && AllSettled(trace[lo..i], trace[i].stage, trace[lo - 1].time, v)
      && trace[i].sum0 == Sum0(trace[lo..i])
      && (!trace[i].stage.Rs? ==> trace[i].sum1 == Sum1(trace[lo..i]))
  }

  /** Note `b` may come right after note `a`. */
  predicate Follows(a: Note, b: Note) {
    match a
    case Settle(s, t) =>
      if s.Rest0? then b.Settle? && b.stage.Lq? && b.time > t + SETTLE_MIN_TICKS else b.Sample? && b.stage == s
    case Sample(s, _, _, _, _) => (b.Sample? || b.Computed?) && b.stage == s
    case Computed(s, _, _) => b.Settle? && b.stage == Next(s)
  }

  /** Stages in cyclic order, each settled before it is sampled, each result justified. */
  ghost predicate Proper(trace: seq<Note>, v: Injection) {
    && (trace != [] ==> trace[0].Settle? && trace[0].stage.Rs?)
    && (forall i :: 0 < i < |trace| ==> Follows(trace[i - 1], trace[i]))
    && (forall i :: 0 <= i < |trace| ==> Justified(trace, i, v))
  }

  lemma ProperAppend(trace: seq<Note>, n: Note, v: Injection)
    requires Proper(trace, v)
    requires if trace == [] then n.Settle? && n.stage.Rs? else Follows(trace[|trace| - 1], n)
    requires n.Computed? ==> Justified(trace + [n], |trace|, v)
    ensures Proper(trace + [n], v)
  {
    hide AllSettled, Sum0, Sum1, Follows;
    var t := trace + [n];
    forall i | 0 <= i < |t|
      ensures Justified(t, i, v)
    {
      if i < |trace| && trace[i].Computed? {
        assert Justified(trace, i, v);
        assert t[i - OVERSAMPLE..i] == trace[i - OVERSAMPLE..i];
      }
    }
    forall i | 0 < i < |t|
      ensures Follows(t[i - 1], t[i])
    {
      if i < |trace| { assert Follows(trace[i - 1], trace[i]); }
    }
  }

  // ---------- The invariant ----------

  /** The samples of the stage under way: the last `n` notes, after the note that its settling began. */
  ghost predicate Open(m: Machine, n: nat, v: Injection) {
    var lo := |m.trace| - n;
    && 1 <= lo && m.trace[lo - 1].Settle? && m.trace[lo - 1].stage == m.stage && m.trace[lo - 1].time <= m.time
    && AllSettled(m.trace[lo..], m.stage, m.trace[lo - 1].time, v)
    && m.acc0 == Sum0(m.trace[lo..])
    && (!m.stage.Rs? ==> m.acc1 == Sum1(m.trace[lo..]))
    && (m.stage.Rs? ==> m.ecd == v.dc && m.ecq == 0)
  }

  ghost predicate Waiting(m: Machine, v: Injection) {
    && m.sub.SettleWait? && !m.stage.Idle? && m.counter == OVERSAMPLE && Open(m, 0, v)
    && m.startTick == m.trace[|m.trace| - 1].time % 0x1_0000_0000
  }

  ghost predicate Measuring(m: Machine, v: Injection) {
    && m.sub.Sampling? && (m.stage.Rs? || m.stage.Ld? || m.stage.Lq?) && m.counter <= OVERSAMPLE
    && var n := OVERSAMPLE - m.counter;
       Open(m, n, v) && m.time > m.trace[|m.trace| - n - 1].time + SETTLE_MIN_TICKS
  }

  ghost predicate AboutToSettle(m: Machine) {
    && m.sub.SettleStart? && (m.stage.Rs? || m.stage.Ld?)
    && if m.trace == [] then m.stage.Rs?
       else m.trace[|m.trace| - 1].Computed? && m.stage == Next(m.trace[|m.trace| - 1].stage)
  }

  ghost predicate Inv(m: Machine, v: Injection) {
    && Proper(m.trace, v)
    && (AboutToSettle(m) || Waiting(m, v) || Measuring(m, v))
    && (m.stage.Rest0? ==> m.ecd == 0 && m.ecq == 0)
  }

  /** The 32-bit difference of two readings never exceeds the periods that passed. */
  lemma DueIsReal(m: Machine, t: nat)
    requires t <= m.time && m.startTick == t % 0x1_0000_0000 && Due(m)
    ensures m.time > t + SETTLE_MIN_TICKS
  {
    var w := 0x1_0000_0000;
    DifferenceOfTicks(m.time, t % w, w);
    var d := m.time - t % w;
    assert t == w * (t / w) + t % w && d == w * (d / w) + d % w;
    assert m.time - t == w * (d / w - t / w) + d % w;
    ModUnique(m.time - t, w, d / w - t / w, d % w);
    assert m.time - t == w * ((m.time - t) / w) + d % w;
  }

  lemma {:induction false} SumBounds(ns: seq<Note>)
    requires AllSamples(ns)
    ensures -0x8000_0000 * |ns| <= Sum0(ns) <= 0x8000_0000 * |ns|
    ensures -0x8000_0000 * |ns| <= Sum1(ns) <= 0x8000_0000 * |ns|
  {
    hide Q31;
    if ns != [] { SumBounds(ns[..|ns| - 1]); }
  }

  lemma SumAppend(ns: seq<Note>, n: Note)
    requires AllSamples(ns) && n.Sample?
    ensures AllSamples(ns + [n])
    ensures Sum0(ns + [n]) == Sum0(ns) + Part0(n) && Sum1(ns + [n]) == Sum1(ns) + Part1(n)
  {
    assert (ns + [n])[..|ns|] == ns;
  }

  /** One more sample of the stage under way; the accumulators never leave 64 bits. */
  lemma OpenSample(m: Machine, m': Machine, n: nat, s: Note, v: Injection)
    requires Open(m, n, v) && n < OVERSAMPLE && Settled(s, m.stage, m.trace[|m.trace| - n - 1].time, v)
    requires m'.trace == m.trace + [s] && m'.stage == m.stage && m'.time >= m.time
    requires m'.acc0 == ToI64(m.acc0 + Part0(s)) && m'.acc1 == ToI64(m.acc1 + Part1(s))
    requires m.stage.Rs? ==> m'.ecd == m.ecd && m'.ecq == m.ecq
    ensures Open(m', n + 1, v) && m'.acc0 == m.acc0 + Part0(s)
  {
    hide Sum0, Sum1, Part0, Part1, OwnVoltage;
    var ns := m.trace[|m.trace| - n..];
    assert m'.trace[|m'.trace| - n - 1..] == ns + [s];
    SumAppend(ns, s);
    SumBounds(ns);
    SumBounds(ns + [s]);
  }

  lemma PwmKeeps(m: Machine, v: Injection, x: Input)
    requires Inv(m, v)
    ensures Inv(Pwm(m, v, x), v)
  {
    hide Pwm, Open, Proper;
    if Measuring(m, v) && Samples(m) { MeasuredKeeps(m, v, x); } else { QuietKeeps(m, v, x); }
  }

  /** A period that takes a sample. */
  lemma MeasuredKeeps(m: Machine, v: Injection, x: Input)
    requires Inv(m, v) && Measuring(m, v) && Samples(m)
    ensures Inv(Pwm(m, v, x), v)
  {
    hide Q31, ToI64, Justified, Proper, Open;
    var m', n := Pwm(m, v, x), OVERSAMPLE - m.counter;
    LastOfOpen(m, n, v);
    var s := m'.trace[|m.trace|];
    OpenSample(m, m', n, s, v);
    ProperAppend(m.trace, s, v);
  }

  /** The last note of a stage under way, and when it began. */
  lemma LastOfOpen(m: Machine, n: nat, v: Injection)
    requires Open(m, n, v)
    ensures |m.trace| > n && m.trace[|m.trace| - n - 1].Settle?
    ensures var last := m.trace[|m.trace| - 1];
            (last.Settle? || last.Sample?) && last.stage == m.stage && (n == 0 <==> last.Settle?)
    ensures m.stage.Rs? ==> m.ecd == v.dc && m.ecq == 0
  {
    hide Sum0, Sum1, OwnVoltage;
    if n > 0 { assert m.trace[|m.trace| - 1] == m.trace[|m.trace| - n..][n - 1]; }
  }

  /** A period that takes none. */
  lemma QuietKeeps(m: Machine, v: Injection, x: Input)
    requires Inv(m, v) && !(Measuring(m, v) && Samples(m))
    ensures Inv(Pwm(m, v, x), v)
  {
    hide Q31, ToI64, Proper, Sum0, Sum1, AllSettled;
  }

  lemma BeginKeeps(m: Machine, v: Injection)
    requires Proper(m.trace, v) && !m.stage.Idle? && (m.stage.Rs? ==> m.ecd == v.dc && m.ecq == 0)
    requires if m.trace == [] then m.stage.Rs? else Follows(m.trace[|m.trace| - 1], Settle(m.stage, m.time))
    ensures var m' := Begin(m, m.stage); Proper(m'.trace, v) && Waiting(m', v)
  {
    hide Proper, Justified;
    ProperAppend(m.trace, Settle(m.stage, m.time), v);
  }

  lemma FinishKeeps(m: Machine, next: Stage, v: Injection)
    requires Proper(m.trace, v) && Measuring(m, v) && m.counter == 0
    ensures Proper(Finish(m, m.stage, next).trace, v)
  {
    hide Proper, Sum0, Sum1, OwnVoltage;
    var n := Computed(m.stage, m.acc0, m.acc1);
    var lo := |m.trace| - OVERSAMPLE;
    assert (m.trace + [n])[lo..|m.trace|] == m.trace[lo..];
    assert m.trace[|m.trace| - 1] == m.trace[lo..][OVERSAMPLE - 1];
    ProperAppend(m.trace, n, v);
  }

  lemma WaitingIsDue(m: Machine, v: Injection)
    requires Waiting(m, v) && Due(m)
    ensures m.time > m.trace[|m.trace| - 1].time + SETTLE_MIN_TICKS
  {
    DueIsReal(m, m.trace[|m.trace| - 1].time);
  }

  lemma StartKeeps(m: Machine, v: Injection)
    requires Proper(m.trace, v) && AboutToSettle(m)
    ensures Inv(CleanSlow(m, v), v)
  {
    hide ToI64, Justified, Proper, Open;
    BeginKeeps(if m.stage.Rs? then m.(ecd := v.dc, ecq := 0) else m, v);
  }

  lemma WaitKeeps(m: Machine, v: Injection)
    requires Inv(m, v) && Waiting(m, v)
    ensures Inv(CleanSlow(m, v), v)
  {
    hide Proper, Due, Sum0, Sum1, AllSettled;
    if Due(m) {
      WaitingIsDue(m, v);
      if m.stage.Rest0? { BeginKeeps(m.(stage := Lq, sub := SettleStart), v); }
    }
  }

  lemma SampleKeeps(m: Machine, v: Injection)
    requires Inv(m, v) && Measuring(m, v)
    ensures Inv(CleanSlow(m, v), v)
  {
    hide Proper, Sum0, Sum1, AllSettled;
    if m.counter == 0 {
      FinishKeeps(m, Next(m.stage), v);
      if m.stage.Ld? { BeginKeeps(Finish(m, Ld, Rest0), v); }
    }
  }

  lemma SlowKeeps(m: Machine, v: Injection)
    requires Inv(m, v)
    ensures !Overruns(m) && Inv(Slow(m, v), v)
  {
    assert !Overruns(m);
    SlowIsCleanIff(m, v);
    hide Inv, Slow, CleanSlow;
    if Waiting(m, v) {
      WaitKeeps(m, v);
    } else if Measuring(m, v) {
      SampleKeeps(m, v);
    } else {
      InvContext(m, v);
      StartKeeps(m, v);
    }
  }

  lemma InvContext(m: Machine, v: Injection)
    requires Inv(m, v)
    ensures Proper(m.trace, v) && (AboutToSettle(m) || Waiting(m, v) || Measuring(m, v))
  {
  }

  // ---------- Whole runs ----------

  function CleanStep(m: Machine, v: Injection, e: Event): Machine {
    match e
    case PwmTick(x) => Pwm(m, v, x)
    case SlowTick => CleanSlow(m, v)
  }

  function CleanRun(m: Machine, v: Injection, events: seq<Event>): Machine {
    if events == [] then m else CleanStep(CleanRun(m, v, events[..|events| - 1]), v, events[|events| - 1])
  }

  /** However the two loops interleave, a run that began with settling is a run of the intended cycle. */
  lemma {:induction false} RunFollowsCycle(m: Machine, v: Injection, events: seq<Event>)
    requires m.sub.SettleStart?
    ensures Run(OnEnter(m), v, events) == CleanRun(OnEnter(m), v, events)
    ensures Inv(Run(OnEnter(m), v, events), v)
  {
    hide Pwm, Slow, CleanSlow, Overruns;
    if events == [] {
    } else {
      hide Inv;
      var n := |events| - 1;
      RunFollowsCycle(m, v, events[..n]);
      var k := Run(OnEnter(m), v, events[..n]);
      match events[n]
      case PwmTick(x) => PwmKeeps(k, v, x);
      case SlowTick =>
        SlowKeeps(k, v);
        SlowIsCleanIff(k, v);
    }
  }

  /** `k` PWM periods while stage RS waits. */
  function Idle(k: nat, x: Input): seq<Event> {
    seq(k, i => PwmTick(x))
  }

  lemma {:induction false} WaitingRun(m: Machine, v: Injection, k: nat, x: Input)
    requires m.stage.Rs? && m.sub.SettleWait?
    ensures Run(m, v, Idle(k, x)) == Away(m, k)
  {
    if k > 0 {
      assert Idle(k, x)[..k - 1] == Idle(k - 1, x);
      WaitingRun(m, v, k - 1, x);
    }
  }

  lemma DueAfter(m: Machine, k: nat)
    requires k == (SETTLE_MIN_TICKS + 1 - Ticks(m) + m.startTick) % 0x1_0000_0000
    ensures Due(Away(m, k))
  {
    var w, need := 0x1_0000_0000, SETTLE_MIN_TICKS + 1 - Ticks(m) + m.startTick;
    DifferenceOfTicks(m.time + k, m.startTick, w);
    assert m.time + k - m.startTick == w * (m.time / w - need / w) + (SETTLE_MIN_TICKS + 1);
    ModUnique(m.time + k - m.startTick, w, m.time / w - need / w, SETTLE_MIN_TICKS + 1);
  }

  /** A reading may be reduced before or after the subtraction. */
  lemma DifferenceOfTicks(a: int, b: int, w: int)
    requires 0 < w
    ensures (a % w - b) % w == (a - b) % w
  {
    var q, d := a / w, a % w - b;
    assert a == w * q + a % w && d == w * (d / w) + d % w;
    assert a - b == w * (q + d / w) + d % w;
    ModUnique(a - b, w, q + d / w, d % w);
  }

  lemma StaleSampling(m: Machine, v: Injection, x: Input) returns (e: Event)
    requires m.stage.Rs? && m.sub.Sampling? && m.trace == []
    ensures !Proper(Step(m, v, e).trace, v)
  {
    e := if m.counter == 0 then SlowTick else PwmTick(x);
    assert !Step(m, v, e).trace[0].Settle?;
  }

  lemma SlowWhenDue(m: Machine, v: Injection)
    requires m.stage.Rs? && m.sub.SettleWait? && Due(m)
    ensures Step(m, v, SlowTick) == m.(ecd := v.dc, ecq := 0, sub := Sampling)
  {
  }

  lemma StaleRun(n: Machine, v: Injection) returns (events: seq<Event>)
    requires n.stage.Rs? && !n.sub.SettleStart? && n.trace == []
    ensures !Proper(Run(n, v, events).trace, v)
  {
    hide Pwm, Slow, Proper, Due, Step;
    var x := Input(0, 0, 0, 0);
    events := [];
    assert Run(n, v, events) == n;
    if n.sub.SettleWait? {
      var k: nat := (SETTLE_MIN_TICKS + 1 - Ticks(n) + n.startTick) % 0x1_0000_0000;
      WaitingRun(n, v, k, x);
      DueAfter(n, k);
      SlowWhenDue(Run(n, v, Idle(k, x)), v);
      events := Append(n, v, Idle(k, x), SlowTick);
    }
    var e := StaleSampling(Run(n, v, events), v, x);
    events := Append(n, v, events, e);
  }

  lemma Append(m: Machine, v: Injection, events: seq<Event>, e: Event) returns (all: seq<Event>)
    ensures Run(m, v, all) == Step(Run(m, v, events), v, e)
  {
    all := events + [e];
    assert all[..|events|] == events;
  }

  /**
   * Entering the mode keeps the sub-stage of an earlier visit. Every run after it is proper if and only if that
   * sub-stage is the start of a settling.
   */
  lemma ProperIffFresh(m: Machine, v: Injection)
    ensures (forall events :: Proper(Run(OnEnter(m), v, events).trace, v)) <==> m.sub.SettleStart?
  {
    hide Proper, Run;
    if m.sub.SettleStart? {
      forall events
        ensures Proper(Run(OnEnter(m), v, events).trace, v)
      {
        RunFollowsCycle(m, v, events);
      }
    } else {
      var events := StaleRun(OnEnter(m), v);
    }
  }

  /**
   * One slow tick after power-on the mode is left, and entered again `k` periods later: it samples without settling.
   */
  lemma StaleReached(v: Injection, k: nat, x: Input)
    requires SETTLE_MIN_TICKS < k < 0x1_0000_0000
    ensures var left := Run(OnEnter(POWER_ON), v, [SlowTick]);
            && Proper(left.trace, v) && left.sub.SettleWait?
            && Run(OnEnter(Away(left, k)), v, [SlowTick, PwmTick(x)]).trace == [Sample(Rs, k, x, v.dc, 0)]
            && !Proper([Sample(Rs, k, x, v.dc, 0)], v)
  {
    RunFollowsCycle(POWER_ON, v, [SlowTick]);
    var first: seq<Event> := [SlowTick];
    assert first[..0] == [];
    var left := Run(OnEnter(POWER_ON), v, first);
    assert left == Slow(OnEnter(POWER_ON), v);
    var again := OnEnter(Away(left, k));
    var both: seq<Event> := [SlowTick, PwmTick(x)];
    assert both[..1] == first;
    assert Run(again, v, first) == Slow(again, v);
    SlowWhenDue(again, v);
    assert Run(again, v, both) == Pwm(Slow(again, v), v, x);
  }
}
