/**
 * Self-commissioning: the PWM interrupt accumulates current samples, the slow tick walks through the identification
 * stages. Each loop call is one atomic step.
 */
module Commissioning {
  import opened Words

  datatype Stage = Idle | Rs | Ld | Rest0 | Lq
  datatype SubStage = SettleStart | SettleWait | Sampling

  const OVERSAMPLE := 32768
  const SETTLE_MIN_TICKS := 20000

  /** What one PWM period brings: the last currents, and the sine and cosine of the injection angle. */
  datatype Input = Input(id: i32, iq: i32, sin: i32, cos: i32)

  /** What happened, in order: a settling started, a sample was accumulated, a parameter was computed. */
  datatype Note =
    | Settle(stage: Stage, time: nat)
    | Sample(stage: Stage, time: nat, input: Input, ecd: i32, ecq: i32)
    | Computed(stage: Stage, sum0: int, sum1: int)

  /** Injected voltages, set before commissioning. */
  datatype Injection = Injection(dc: i32, hf: i32)

  /**
   * `trace` is what happened since the mode was entered. `time` counts PWM periods without end; the firmware's counter
   * is its low 32 bits.
   */
  datatype Machine = Machine(stage: Stage, sub: SubStage, time: nat, startTick: u32, counter: u16,
                             acc0: i64, acc1: i64, ecd: i32, ecq: i32, trace: seq<Note>)

  type i64 = x: int | -0x8000_0000_0000_0000 <= x < 0x8000_0000_0000_0000

  function ToI64(x: int): i64 {
    (x + 0x8000_0000_0000_0000) % 0x1_0000_0000_0000_0000 - 0x8000_0000_0000_0000
  }

  lemma FitsI64(x: i64)
    ensures ToI64(x) == x
  {
  }

  function Ticks(m: Machine): u32 { m.time % 0x1_0000_0000 }

  /** Product of two q31 numbers, `((int64_t)a * b) >> 31` stored in 32 bits. */
  function Q31(a: i32, b: i32): i32 {
    ToI32(a as int * b as int / 0x8000_0000)
  }

  // ---------- PWM loop ----------

  function Accumulate(m: Machine, a0: int, a1: int): Machine {
    m.(acc0 := ToI64(m.acc0 + a0), acc1 := ToI64(m.acc1 + a1), counter := if m.counter > 0 then m.counter - 1 else 0)
  }

  function Noted(m: Machine, n: Note): Machine {
    m.(trace := m.trace + [n])
  }

  predicate Samples(m: Machine) {
    m.counter > 0 && m.sub.Sampling?
  }

  function Pwm(m: Machine, v: Injection, x: Input): Machine {
    var n := match m.stage {
      case Rs =>
        if Samples(m) then Noted(Accumulate(m, x.id, 0), Sample(Rs, m.time, x, m.ecd, m.ecq)) else m
      case Ld =>
        var p := m.(ecd := Q31(v.hf, x.sin), ecq := 0);
        if Samples(m) then
          Noted(Accumulate(p, Q31(x.id, x.sin), Q31(x.id, x.cos)), Sample(Ld, m.time, x, p.ecd, p.ecq))
        else p
      case Lq =>
        var p := m.(ecd := 0, ecq := Q31(v.hf, x.sin));
        if Samples(m) then
          Noted(Accumulate(p, Q31(x.iq, x.sin), Q31(x.iq, x.cos)), Sample(Lq, m.time, x, p.ecd, p.ecq))
        else p
      case _ => m
    };
    n.(time := m.time + 1)
  }

  // ---------- Slow loop ----------

  predicate Due(m: Machine) {
    (Ticks(m) - m.startTick) % 0x1_0000_0000 > SETTLE_MIN_TICKS
  }

  /** Settling starts; stage RS leaves the second accumulator alone. */
  function Begin(m: Machine, stage: Stage): Machine {
    Noted(m.(startTick := Ticks(m), sub := SettleWait, acc0 := 0, acc1 := if stage.Rs? then m.acc1 else 0,
             counter := OVERSAMPLE), Settle(stage, m.time))
  }

  function Finish(m: Machine, stage: Stage, next: Stage): Machine {
    Noted(m.(stage := next, sub := SettleStart), Computed(stage, m.acc0, m.acc1))
  }

  function RsSlow(m: Machine, v: Injection): Machine {
    var n := m.(ecd := v.dc, ecq := 0);
    match n.sub
    case SettleStart => Begin(n, Rs)
    case SettleWait => if Due(n) then n.(sub := Sampling) else n
    case Sampling => if n.counter == 0 then Finish(n, Rs, Ld) else n
  }

  function LdSlow(m: Machine): Machine {
    match m.sub
    case SettleStart => Begin(m, Ld)
    case SettleWait => if Due(m) then m.(sub := Sampling) else m
    case Sampling => if m.counter == 0 then Finish(m, Ld, Rest0) else m
  }

  function RestSlow(m: Machine): Machine {
    match m.sub
    case SettleStart => Begin(m, Rest0).(ecd := 0, ecq := 0)
    case SettleWait => if Due(m) then m.(sub := SettleStart, stage := Lq) else m
    case Sampling => m
  }

  function LqSlow(m: Machine): Machine {
    match m.sub
    case SettleStart => Begin(m, Lq)
    case SettleWait => if Due(m) then m.(sub := Sampling, startTick := Ticks(m)) else m
    case Sampling => if m.counter == 0 then Finish(m, Lq, Rs) else m
  }

  /** As written: LD falls through to REST0, and both fall through to LQ. */
  function Slow(m: Machine, v: Injection): Machine {
    match m.stage
    case Idle => m
    case Rs => RsSlow(m, v)
    case Ld => LqSlow(RestSlow(LdSlow(m)))
    case Rest0 => LqSlow(RestSlow(m))
    case Lq => LqSlow(m)
  }

  /** Entering the mode selects the stage and leaves the sub-stage as it was. The trace is that of this visit. */
  function OnEnter(m: Machine): Machine {
    m.(stage := Rs, trace := [])
  }

  /** As constructed. */
  const POWER_ON := Machine(Idle, SettleStart, 0, 0, 0, 0, 0, 0, 0, [])

  /** Leaving the mode, and what comes back after `k` PWM periods in other modes. */
  function Away(m: Machine, k: nat): Machine {
    m.(time := m.time + k)
  }

  // ---------- The intended cycle ----------

  function Next(s: Stage): Stage {
    match s
    case Rs => Ld
    case Ld => Rest0
    case Rest0 => Lq
    case Lq => Rs
    case Idle => Idle
  }

  /**
   * One stage at a time: settle, sample, compute; REST0 only settles. A new stage after LD and REST0 starts to settle
   * at once.
   */
  function CleanSlow(m: Machine, v: Injection): Machine {
    match m.stage
    case Idle => m
    case Rs => RsSlow(m, v)
    case Ld =>
      var n := LdSlow(m);
      if n.stage.Rest0? then Begin(n, Rest0).(ecd := 0, ecq := 0) else n
    case Rest0 =>
      var n := RestSlow(m);
      if n.stage.Lq? then Begin(n, Lq) else n
    case Lq => LqSlow(m)
  }

  datatype Event = PwmTick(input: Input) | SlowTick

  function Step(m: Machine, v: Injection, e: Event): Machine {
    match e
    case PwmTick(x) => Pwm(m, v, x)
    case SlowTick => Slow(m, v)
  }

  function Run(m: Machine, v: Injection, events: seq<Event>): Machine {
    if events == [] then m else Step(Run(m, v, events[..|events| - 1]), v, events[|events| - 1])
  }
}
