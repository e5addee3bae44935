/** That commissioning gets on: given time, every stage takes its samples, computes its result and is left. */
module CommissioningProgress {
  import opened Words
  import opened Commissioning
  import opened CommissioningRuns

  // ---------- Single steps ----------

  predicate IsMeasured(stage: Stage) { stage.Rs? || stage.Ld? || stage.Lq? }

  /** What stage `stage` takes from one period: its two addends. */
  function Addends(stage: Stage, x: Input): (int, int) {
    match stage
    case Rs => (x.id, 0)
    case Ld => (Q31(x.id, x.sin), Q31(x.id, x.cos))
    case Lq => (Q31(x.iq, x.sin), Q31(x.iq, x.cos))
    case _ => (0, 0)
  }

  /** A period with samples outstanding takes one, under the voltage the stage injects, and counts it. */
  lemma SampleTaken(m: Machine, v: Injection, x: Input)
    requires IsMeasured(m.stage) && m.sub.Sampling? && m.counter > 0
    ensures var m' := Pwm(m, v, x);
            && m' == m.(time := m.time + 1, counter := m.counter - 1, ecd := m'.ecd, ecq := m'.ecq,
                        acc0 := ToI64(m.acc0 + Addends(m.stage, x).0), acc1 := ToI64(m.acc1 + Addends(m.stage, x).1),
                        trace := m.trace + [Sample(m.stage, m.time, x, m'.ecd, m'.ecq)])
            && (m.stage.Rs? ==> m'.ecd == m.ecd && m'.ecq == m.ecq)
            && (m.stage.Ld? ==> m'.ecd == Q31(v.hf, x.sin) && m'.ecq == 0)
            && (m.stage.Lq? ==> m'.ecd == 0 && m'.ecq == Q31(v.hf, x.sin))
  {
    hide ToI64, Q31;
  }

  /** Any other period changes nothing but the time and the injected voltage. */
  lemma NothingTaken(m: Machine, v: Injection, x: Input)
    requires !m.sub.Sampling? || m.counter == 0 || !IsMeasured(m.stage)
    ensures var m' := Pwm(m, v, x); m' == m.(time := m.time + 1, ecd := m'.ecd, ecq := m'.ecq)
    ensures m.stage.Rs? ==> Pwm(m, v, x).ecd == m.ecd && Pwm(m, v, x).ecq == m.ecq
  {
    hide ToI64, Q31;
  }

  /** The product of two q31 numbers, rounded down; only the square of -1 does not fit. */
  lemma Q31Meaning(a: i32, b: i32)
    requires a > -0x8000_0000 || b > -0x8000_0000
    ensures 0x8000_0000 * Q31(a, b) as int <= a as int * b as int < 0x8000_0000 * (Q31(a, b) as int + 1)
  {
    var p := a as int * b as int;
    ProductFits(a, b);
    assert -0x8000_0000 <= p / 0x8000_0000 < 0x8000_0000;
  }

  lemma ProductFits(a: int, b: int)
    requires -0x8000_0000 <= a < 0x8000_0000 && -0x8000_0000 <= b < 0x8000_0000
    requires a > -0x8000_0000 || b > -0x8000_0000
    ensures -0x4000_0000_0000_0000 <= a * b < 0x4000_0000_0000_0000
  {
    var x, y := if a < 0 then -a else a, if b < 0 then -b else b;
    assert a * b == x * y || a * b == -(x * y);
    if x < 0x8000_0000 { SmallProduct(x, y); } else { SmallProduct(y, x); }
  }

  lemma SmallProduct(x: nat, y: nat)
    requires x < 0x8000_0000 && y <= 0x8000_0000
    ensures 0 <= x * y < 0x4000_0000_0000_0000 && x * y == y * x
  {
    assert x * y <= 0x7FFF_FFFF * y;
  }

  // ---------- Sequences of periods ----------

  function Periods(xs: seq<Input>): seq<Event> {
    seq(|xs|, i requires 0 <= i < |xs| => PwmTick(xs[i]))
  }

  lemma {:induction false} RunConcat(m: Machine, v: Injection, a: seq<Event>, b: seq<Event>)
    ensures Run(m, v, a + b) == Run(Run(m, v, a), v, b)
  {
    hide Step;
    if b == [] {
      assert a + b == a;
    } else {
      var n := |b| - 1;
      assert (a + b)[..|a + b| - 1] == a + b[..n];
      RunConcat(m, v, a, b[..n]);
    }
  }

  lemma PeriodsSnoc(m: Machine, v: Injection, xs: seq<Input>)
    requires xs != []
    ensures var n := |xs| - 1; Run(m, v, Periods(xs)) == Pwm(Run(m, v, Periods(xs[..n])), v, xs[n])
  {
    hide Pwm;
    var n := |xs| - 1;
    assert Periods(xs)[..n] == Periods(xs[..n]);
  }

  /** Periods in which nothing is sampled. */
  lemma {:induction false} PeriodsPass(m: Machine, v: Injection, xs: seq<Input>)
    requires !m.sub.Sampling? || m.counter == 0 || !IsMeasured(m.stage)
    ensures var m' := Run(m, v, Periods(xs)); m' == m.(time := m.time + |xs|, ecd := m'.ecd, ecq := m'.ecq)
    ensures m.stage.Rs? ==> Run(m, v, Periods(xs)).ecd == m.ecd && Run(m, v, Periods(xs)).ecq == m.ecq
  {
    hide Pwm;
    if xs == [] {
    } else {
      hide Run;
      var n := |xs| - 1;
      PeriodsSnoc(m, v, xs);
      PeriodsPass(m, v, xs[..n]);
      NothingTaken(Run(m, v, Periods(xs[..n])), v, xs[n]);
    }
  }

  function Total0(stage: Stage, xs: seq<Input>): int {
    if xs == [] then 0 else Total0(stage, xs[..|xs| - 1]) + Addends(stage, xs[|xs| - 1]).0
  }

  function Total1(stage: Stage, xs: seq<Input>): int {
    if xs == [] then 0 else Total1(stage, xs[..|xs| - 1]) + Addends(stage, xs[|xs| - 1]).1
  }

  lemma AddendBounds(stage: Stage, x: Input)
    ensures var (a, b) := Addends(stage, x); -0x8000_0000 <= a < 0x8000_0000 && -0x8000_0000 <= b < 0x8000_0000
  {
    hide Q31;
  }

  lemma {:induction false} TotalBounds(stage: Stage, xs: seq<Input>)
    ensures -0x8000_0000 * |xs| <= Total0(stage, xs) <= 0x8000_0000 * |xs|
    ensures -0x8000_0000 * |xs| <= Total1(stage, xs) <= 0x8000_0000 * |xs|
  {
    hide Addends;
    if xs != [] {
      TotalBounds(stage, xs[..|xs| - 1]);
      AddendBounds(stage, xs[|xs| - 1]);
    }
  }

  /** One sample of the stage for each input, in order, from time `t` on. */
  predicate SamplesOf(ns: seq<Note>, stage: Stage, t: nat, xs: seq<Input>) {
    && |ns| == |xs|
    && forall i :: 0 <= i < |ns| ==>
         ns[i].Sample? && ns[i].stage == stage && ns[i].time == t + i && ns[i].input == xs[i]
  }

  /** Sampling has just begun. */
  predicate Cleared(m: Machine) {
    m.sub.Sampling? && m.counter == OVERSAMPLE && m.acc0 == 0 && (!m.stage.Rs? ==> m.acc1 == 0)
  }

  /** Periods while samples are outstanding: each adds its own, and the sums are those of the inputs. */
  lemma {:induction false} PeriodsSample(m: Machine, v: Injection, xs: seq<Input>) returns (ns: seq<Note>)
    requires IsMeasured(m.stage) && Cleared(m) && |xs| <= OVERSAMPLE
    ensures var m' := Run(m, v, Periods(xs));
            && m' == m.(time := m.time + |xs|, counter := OVERSAMPLE - |xs|, ecd := m'.ecd, ecq := m'.ecq,
                        acc0 := m'.acc0, acc1 := m'.acc1, trace := m.trace + ns)
            && m'.acc0 == Total0(m.stage, xs) && (!m.stage.Rs? ==> m'.acc1 == Total1(m.stage, xs))
            && SamplesOf(ns, m.stage, m.time, xs)
  {
    hide Pwm, Addends, ToI64;
    ns := [];
    if xs == [] {
      assert m.trace + [] == m.trace;
    } else {
      hide Run;
      var n := |xs| - 1;
      var before := PeriodsSample(m, v, xs[..n]);
      PeriodsSnoc(m, v, xs);
      var mid := Run(m, v, Periods(xs[..n]));
      SampleTaken(mid, v, xs[n]);
      TotalBounds(m.stage, xs);
      FitsI64(Total0(m.stage, xs));
      FitsI64(Total1(m.stage, xs));
      var end := Run(m, v, Periods(xs));
      ns := before + [Sample(m.stage, mid.time, xs[n], end.ecd, end.ecq)];
      assert m.trace + ns == m.trace + before + [Sample(m.stage, mid.time, xs[n], end.ecd, end.ecq)];
    }
  }

  /** Enough periods for all samples, and perhaps more: the first 32768 are taken and no others. */
  lemma PeriodsFill(m: Machine, v: Injection, xs: seq<Input>) returns (ns: seq<Note>)
    requires IsMeasured(m.stage) && Cleared(m) && OVERSAMPLE <= |xs|
    ensures var m' := Run(m, v, Periods(xs));
            && m' == m.(time := m.time + |xs|, counter := 0, ecd := m'.ecd, ecq := m'.ecq, acc0 := m'.acc0,
                        acc1 := m'.acc1, trace := m.trace + ns)
            && m'.acc0 == Total0(m.stage, xs[..OVERSAMPLE])
            && (!m.stage.Rs? ==> m'.acc1 == Total1(m.stage, xs[..OVERSAMPLE]))
            && SamplesOf(ns, m.stage, m.time, xs[..OVERSAMPLE])
  {
    hide Run, Total0, Total1, SamplesOf;
    var first, more := xs[..OVERSAMPLE], xs[OVERSAMPLE..];
    ns := PeriodsSample(m, v, first);
    PeriodsPass(Run(m, v, Periods(first)), v, more);
    RunConcat(m, v, Periods(first), Periods(more));
    assert Periods(first) + Periods(more) == Periods(xs);
  }

  // ---------- Stages ----------

  /** A stage has just begun to settle. */
  predicate Begun(m: Machine, stage: Stage) {
    && m.stage == stage && m.sub.SettleWait? && m.startTick == Ticks(m) && m.counter == OVERSAMPLE && m.acc0 == 0
    && (!stage.Rs? ==> m.acc1 == 0)
  }

  /** A wait longer than the settling time, and shorter than the tick counter's period. */
  predicate LongEnough(w: seq<Input>) {
    SETTLE_MIN_TICKS < |w| < 0x1_0000_0000
  }

  lemma DueAfterWait(m: Machine, k: nat)
    requires m.startTick == Ticks(m) && SETTLE_MIN_TICKS < k < 0x1_0000_0000
    ensures Due(m.(time := m.time + k))
  {
    var w := 0x1_0000_0000;
    DifferenceOfTicks(m.time + k, m.time % w, w);
    assert m.time + k - m.time % w == w * (m.time / w) + k;
    ModUnique(m.time + k - m.time % w, w, m.time / w, k);
  }

  lemma DueIgnores(m: Machine, m': Machine)
    requires m.time == m'.time && m.startTick == m'.startTick
    ensures Due(m) == Due(m')
  {
  }

  /** One slow tick that finds a stage settled starts its sampling. */
  lemma SlowStartsSampling(m: Machine, v: Injection)
    requires IsMeasured(m.stage) && m.sub.SettleWait? && Due(m) && m.counter == OVERSAMPLE
    ensures var m' := Slow(m, v);
            m' == m.(sub := Sampling, startTick := m'.startTick, ecd := m'.ecd, ecq := m'.ecq)
    ensures m.stage.Rs? ==> Slow(m, v).ecd == v.dc && Slow(m, v).ecq == 0
  {
    DueIgnores(m, m.(ecd := v.dc, ecq := 0));
    hide Due;
  }

  /** One slow tick that finds all samples taken computes the result and goes on to the next stage. */
  lemma SlowComputes(m: Machine, v: Injection)
    requires IsMeasured(m.stage) && m.sub.Sampling? && m.counter == 0
    ensures var m' := Slow(m, v);
            && m'.stage == Next(m.stage) && m'.time == m.time
            && m'.trace == m.trace + [Computed(m.stage, m.acc0, m.acc1)]
                           + (if m.stage.Ld? then [Settle(Rest0, m.time)] else [])
            && (if m.stage.Ld? then Begun(m', Rest0) else m'.sub.SettleStart?)
  {
    SlowIsCleanIff(m, v);
    hide Slow;
    assert m.trace + [Computed(m.stage, m.acc0, m.acc1)] + [] == m.trace + [Computed(m.stage, m.acc0, m.acc1)];
  }

  /** The schedule of a stage that is measured: wait, a slow tick, sample, a slow tick. */
  function Visit(w: seq<Input>, xs: seq<Input>): seq<Event> {
    Periods(w) + [SlowTick] + Periods(xs) + [SlowTick]
  }

  lemma OneSlow(m: Machine, v: Injection)
    ensures Run(m, v, [SlowTick]) == Slow(m, v)
  {
    var one: seq<Event> := [SlowTick];
    assert one[..0] == [];
  }

  lemma WaitAndTick(m: Machine, v: Injection, w: seq<Input>)
    ensures Run(m, v, Periods(w) + [SlowTick]) == Slow(Run(m, v, Periods(w)), v)
  {
    RunConcat(m, v, Periods(w), [SlowTick]);
    OneSlow(Run(m, v, Periods(w)), v);
  }

  /** After its settling time a slow tick lets the stage sample. */
  lemma Settles(m: Machine, v: Injection, w: seq<Input>)
    requires IsMeasured(m.stage) && Begun(m, m.stage) && LongEnough(w)
    ensures var m' := Run(m, v, Periods(w) + [SlowTick]);
            && m'.stage == m.stage && Cleared(m') && m'.trace == m.trace && m'.time == m.time + |w|
            && (m.stage.Rs? ==> m'.ecd == v.dc && m'.ecq == 0)
  {
    hide Run, Due, Slow;
    WaitAndTick(m, v, w);
    PeriodsPass(m, v, w);
    DueAfterWait(m, |w|);
    var waited := Run(m, v, Periods(w));
    DueIgnores(waited, m.(time := m.time + |w|));
    SlowStartsSampling(waited, v);
  }

  /** What a completed visit adds to the trace. */
  function Result(stage: Stage, ns: seq<Note>, xs: seq<Input>, sum1: int, end: nat): seq<Note> {
    ns + [Computed(stage, Total0(stage, xs), sum1)] + (if stage.Ld? then [Settle(Rest0, end)] else [])
  }

  /**
   * A stage given its settling time and 32768 periods takes exactly the samples of these periods, computes its result
   * from them and hands over to the next stage.
   */
  lemma StageCompletes(m: Machine, v: Injection, w: seq<Input>, xs: seq<Input>) returns (ns: seq<Note>, sum1: int)
    requires IsMeasured(m.stage) && Begun(m, m.stage) && LongEnough(w) && OVERSAMPLE <= |xs|
    ensures var m' := Run(m, v, Visit(w, xs));
            && m'.stage == Next(m.stage) && m'.time == m.time + |w| + |xs|
            && m'.trace == m.trace + Result(m.stage, ns, xs[..OVERSAMPLE], sum1, m'.time)
            && (if m.stage.Ld? then Begun(m', Rest0) else m'.sub.SettleStart?)
    ensures SamplesOf(ns, m.stage, m.time + |w|, xs[..OVERSAMPLE])
    ensures !m.stage.Rs? ==> sum1 == Total1(m.stage, xs[..OVERSAMPLE])
  {
    hide Run, Slow, SamplesOf, Total0, Total1;
    Settles(m, v, w);
    var settled := Run(m, v, Periods(w) + [SlowTick]);
    ns := PeriodsFill(settled, v, xs);
    var full := Run(settled, v, Periods(xs));
    SlowComputes(full, v);
    WaitAndTick(settled, v, xs);
    RunConcat(m, v, Periods(w) + [SlowTick], Periods(xs) + [SlowTick]);
    assert Visit(w, xs) == Periods(w) + [SlowTick] + (Periods(xs) + [SlowTick]);
    sum1 := full.acc1;
    var done := [Computed(m.stage, full.acc0, full.acc1)];
    var later := if m.stage.Ld? then [Settle(Rest0, full.time)] else [];
    assert m.trace + ns + done + later == m.trace + (ns + done + later);
  }

  /** The pause before stage Lq ends by itself too. */
  lemma RestCompletes(m: Machine, v: Injection, w: seq<Input>)
    requires Begun(m, Rest0) && LongEnough(w)
    ensures var m' := Run(m, v, Periods(w) + [SlowTick]);
            Begun(m', Lq) && m'.time == m.time + |w| && m'.trace == m.trace + [Settle(Lq, m'.time)]
  {
    hide Run, Due, Slow;
    WaitAndTick(m, v, w);
    PeriodsPass(m, v, w);
    DueAfterWait(m, |w|);
    var waited := Run(m, v, Periods(w));
    DueIgnores(waited, m.(time := m.time + |w|));
    RestEnds(waited, v);
  }

  lemma RestEnds(m: Machine, v: Injection)
    requires m.stage.Rest0? && m.sub.SettleWait? && Due(m)
    ensures var m' := Slow(m, v);
            Begun(m', Lq) && m'.time == m.time && m'.trace == m.trace + [Settle(Lq, m.time)]
  {
  }

  /** A slow tick in a stage that is to settle starts the settling. */
  lemma Begins(m: Machine, v: Injection)
    requires (m.stage.Rs? || m.stage.Ld?) && m.sub.SettleStart?
    ensures var m' := Run(m, v, [SlowTick]);
            Begun(m', m.stage) && m'.time == m.time && m'.trace == m.trace + [Settle(m.stage, m.time)]
  {
    OneSlow(m, v);
  }

  // ---------- One whole cycle ----------

  /** From entering the mode to the end of stage Lq: four waits, and the periods to be sampled in three stages. */
  datatype Schedule = Schedule(w1: seq<Input>, rs: seq<Input>, w2: seq<Input>, ld: seq<Input>, w3: seq<Input>,
                               w4: seq<Input>, lq: seq<Input>)

  predicate Patient(s: Schedule) {
    && 20000 < |s.w1| < 0x1_0000_0000 && 20000 < |s.w2| < 0x1_0000_0000
    && 20000 < |s.w3| < 0x1_0000_0000 && 20000 < |s.w4| < 0x1_0000_0000
    && 32768 <= |s.rs| && 32768 <= |s.ld| && 32768 <= |s.lq|
  }

  function RsEvents(s: Schedule): seq<Event> { [SlowTick] + Visit(s.w1, s.rs) }
  function LdEvents(s: Schedule): seq<Event> { [SlowTick] + Visit(s.w2, s.ld) }
  function LqEvents(s: Schedule): seq<Event> { Periods(s.w3) + [SlowTick] + Visit(s.w4, s.lq) }

  /** Stages RS and LD each begin with a slow tick. */
  lemma FromStart(m: Machine, v: Injection, w: seq<Input>, xs: seq<Input>) returns (ns: seq<Note>, sum1: int)
    requires (m.stage.Rs? || m.stage.Ld?) && m.sub.SettleStart? && LongEnough(w) && OVERSAMPLE <= |xs|
    ensures var m' := Run(m, v, [SlowTick] + Visit(w, xs));
            && m'.stage == Next(m.stage) && m'.time == m.time + |w| + |xs|
            && m'.trace == m.trace + [Settle(m.stage, m.time)]
                           + Result(m.stage, ns, xs[..OVERSAMPLE], sum1, m'.time)
            && (if m.stage.Ld? then Begun(m', Rest0) else m'.sub.SettleStart?)
    ensures SamplesOf(ns, m.stage, m.time + |w|, xs[..OVERSAMPLE])
    ensures !m.stage.Rs? ==> sum1 == Total1(m.stage, xs[..OVERSAMPLE])
  {
    hide Run, Slow, SamplesOf, Total0, Total1, Visit;
    Begins(m, v);
    ns, sum1 := StageCompletes(Run(m, v, [SlowTick]), v, w, xs);
    RunConcat(m, v, [SlowTick], Visit(w, xs));
  }

  lemma LqCompletes(m: Machine, v: Injection, s: Schedule) returns (ns: seq<Note>, sum1: int)
    requires Begun(m, Rest0) && Patient(s)
    ensures var m' := Run(m, v, LqEvents(s));
            && m'.stage.Rs? && m'.sub.SettleStart?
            && m'.trace == m.trace + [Settle(Lq, m.time + |s.w3|)] + Result(Lq, ns, s.lq[..OVERSAMPLE], sum1, m'.time)
    ensures SamplesOf(ns, Lq, m.time + |s.w3| + |s.w4|, s.lq[..OVERSAMPLE])
    ensures sum1 == Total1(Lq, s.lq[..OVERSAMPLE])
  {
    hide Run, Slow, SamplesOf, Total0, Total1, Visit;
    RestCompletes(m, v, s.w3);
    ns, sum1 := StageCompletes(Run(m, v, Periods(s.w3) + [SlowTick]), v, s.w4, s.lq);
    RunConcat(m, v, Periods(s.w3) + [SlowTick], Visit(s.w4, s.lq));
  }

  /**
   * Entered with a settling to start, the mode measures everything in one cycle: RS, LD and LQ each end with the result
   * of exactly 32768 samples of their own, from the inputs of their own periods, and the machine is back in stage RS.
   */
  lemma CycleCompletes(m: Machine, v: Injection, s: Schedule)
    returns (rs: seq<Note>, ld: seq<Note>, lq: seq<Note>, rs1: int, trace: seq<Note>)
    requires m.sub.SettleStart? && Patient(s)
    ensures var m' := Run(OnEnter(m), v, RsEvents(s) + LdEvents(s) + LqEvents(s));
            && m'.stage.Rs? && m'.sub.SettleStart? && m'.trace == trace
    ensures var t2 := m.time + |s.w1| + |s.rs|;
            var t3 := t2 + |s.w2| + |s.ld|;
            var a, b, c := s.rs[..32768], s.ld[..32768], s.lq[..32768];
            && SamplesOf(rs, Rs, m.time + |s.w1|, a) && SamplesOf(ld, Ld, t2 + |s.w2|, b)
            && SamplesOf(lq, Lq, t3 + |s.w3| + |s.w4|, c)
            && trace == [Settle(Rs, m.time)] + rs + [Computed(Rs, Total0(Rs, a), rs1)]
                        + [Settle(Ld, t2)] + ld + [Computed(Ld, Total0(Ld, b), Total1(Ld, b))]
                        + [Settle(Rest0, t3), Settle(Lq, t3 + |s.w3|)] + lq
                        + [Computed(Lq, Total0(Lq, c), Total1(Lq, c))]
  {
    hide Run, Slow, SamplesOf, Total0, Total1, Visit, LqEvents;
    var m0, ld1, lq1 := OnEnter(m), 0, 0;
    rs, rs1 := FromStart(m0, v, s.w1, s.rs);
    var m1 := Run(m0, v, RsEvents(s));
    ld, ld1 := FromStart(m1, v, s.w2, s.ld);
    var m2 := Run(m1, v, LdEvents(s));
    lq, lq1 := LqCompletes(m2, v, s);
    RunConcat(m0, v, RsEvents(s), LdEvents(s));
    RunConcat(m0, v, RsEvents(s) + LdEvents(s), LqEvents(s));
    trace := Run(m2, v, LqEvents(s)).trace;
    Joined(m.time, s, rs, ld, lq, rs1, Run(m2, v, LqEvents(s)).time);
  }

  /** The notes of the three visits, joined. */
  lemma Joined(t: nat, s: Schedule, rs: seq<Note>, ld: seq<Note>, lq: seq<Note>, rs1: int, end: nat)
    requires Patient(s)
    ensures var t2 := t + |s.w1| + |s.rs|;
            var t3 := t2 + |s.w2| + |s.ld|;
            var a, b, c := s.rs[..32768], s.ld[..32768], s.lq[..32768];
            [] + [Settle(Rs, t)] + Result(Rs, rs, a, rs1, t2)
               + [Settle(Ld, t2)] + Result(Ld, ld, b, Total1(Ld, b), t3)
               + [Settle(Lq, t3 + |s.w3|)] + Result(Lq, lq, c, Total1(Lq, c), end)
            == [Settle(Rs, t)] + rs + [Computed(Rs, Total0(Rs, a), rs1)]
               + [Settle(Ld, t2)] + ld + [Computed(Ld, Total0(Ld, b), Total1(Ld, b))]
               + [Settle(Rest0, t3), Settle(Lq, t3 + |s.w3|)] + lq
               + [Computed(Lq, Total0(Lq, c), Total1(Lq, c))]
  {
    hide Total0, Total1;
  }
}
