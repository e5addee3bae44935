/** The two loops as the firmware runs them over shared fields. */
module CommissioningLoops {
  import opened Words
  import opened Commissioning

  class SComm {
    const injection: Injection
    var stage: Stage
    var sub: SubStage
    var pTicks: u32
    var startTick: u32
    var counter: u16
    var acc0: i64
    var acc1: i64
    var ecd: i32
    var ecq: i32
    ghost var time: nat
    ghost var trace: seq<Note>

    ghost predicate Valid()
      reads this
    {
      pTicks == time % 0x1_0000_0000
    }

    ghost function State(): Machine
      reads this
    {
      Machine(stage, sub, time, startTick, counter, acc0, acc1, ecd, ecq, trace)
    }

    constructor (injection: Injection)
      ensures Valid() && this.injection == injection
      ensures State() == POWER_ON
    {
      this.injection := injection;
      stage, sub, pTicks, startTick, counter := Idle, SettleStart, 0, 0, 0;
      acc0, acc1, ecd, ecq := 0, 0, 0, 0;
      time, trace := 0, [];
    }

    method Enter()
      requires Valid()
      modifies this
      ensures Valid() && State() == OnEnter(old(State()))
    {
      stage := Rs;
      trace := [];
    }

    method PwmLoop(x: Input)
      requires Valid()
      modifies this
      ensures Valid() && State() == Pwm(old(State()), injection, x)
    {
      hide Q31, ToI64;
      match stage {
        case Rs =>
          if counter != 0 && sub == Sampling {
            acc0 := ToI64(acc0 + x.id);
            FitsI64(acc1);
            counter := counter - 1;
            trace := trace + [Sample(Rs, time, x, ecd, ecq)];
          }
        case Ld =>
          ecd := Q31(injection.hf, x.sin);
          ecq := 0;
          Heterodyne(x.id, x);
        case Lq =>
          ecd := 0;
          ecq := Q31(injection.hf, x.sin);
          Heterodyne(x.iq, x);
        case _ =>
      }
      pTicks := (pTicks + 1) % 0x1_0000_0000;
      time := time + 1;
    }

    /** While sampling, accumulates the products of a current with the injected sine and cosine. */
    method Heterodyne(current: i32, x: Input)
      modifies `acc0, `acc1, `counter, `trace
      ensures State() == if Samples(old(State()))
        then Noted(Accumulate(old(State()), Q31(current, x.sin), Q31(current, x.cos)), Sample(stage, time, x, ecd, ecq))
        else old(State())
    {
      hide Q31, ToI64;
      if counter != 0 && sub == Sampling {
        acc0 := ToI64(acc0 + Q31(current, x.sin));
        acc1 := ToI64(acc1 + Q31(current, x.cos));
        counter := counter - 1;
        trace := trace + [Sample(stage, time, x, ecd, ecq)];
      }
    }

    /** Starts to settle. */
    method BeginSettling(ghost stage: Stage)
      requires Valid()
      modifies this
      ensures State() == old(Begin(State(), stage).(acc1 := acc1)) && pTicks == old(pTicks)
    {
      startTick := pTicks;
      sub := SettleWait;
      acc0 := 0;
      counter := OVERSAMPLE;
      trace := trace + [Settle(stage, time)];
    }

    method SettlingIsDue() returns (due: bool)
      requires Valid()
      ensures due == Due(State())
    {
      due := (pTicks - startTick) % 0x1_0000_0000 > SETTLE_MIN_TICKS;
    }

    method XmcLoop()
      requires Valid()
      modifies this
      ensures Valid() && State() == Slow(old(State()), injection)
    {
      var entry := stage;
      if entry == Rs {
        XmcRs();
        return;
      }
      if entry == Ld { XmcLd(); }
      // The case of LD runs on into the case of REST0, and that one into the case of LQ.
      if entry == Ld || entry == Rest0 { XmcRest(); }
      if entry == Ld || entry == Rest0 || entry == Lq { XmcLq(); }
    }

    method XmcRs()
      requires Valid()
      modifies this
      ensures Valid() && State() == RsSlow(old(State()), injection)
    {
      ecd := injection.dc;
      ecq := 0;
      match sub {
        case SettleStart =>
          BeginSettling(Rs);
        case SettleWait =>
          var due := SettlingIsDue();
          if due { sub := Sampling; }
        case Sampling =>
          if counter == 0 {
            trace := trace + [Computed(Rs, acc0, acc1)];
            stage := Ld;
            sub := SettleStart;
          }
      }
    }

    method XmcLd()
      requires Valid()
      modifies this
      ensures Valid() && State() == LdSlow(old(State()))
    {
      match sub {
        case SettleStart =>
          BeginSettling(Ld);
          acc1 := 0;
        case SettleWait =>
          var due := SettlingIsDue();
          if due { sub := Sampling; }
        case Sampling =>
          if counter == 0 {
            trace := trace + [Computed(Ld, acc0, acc1)];
            sub := SettleStart;
            stage := Rest0;
          }
      }
    }

    method XmcRest()
      requires Valid()
      modifies this
      ensures Valid() && State() == RestSlow(old(State()))
    {
      match sub {
        case SettleStart =>
          BeginSettling(Rest0);
          acc1 := 0;
          ecd := 0;
          ecq := 0;
        case SettleWait =>
          var due := SettlingIsDue();
          if due {
            sub := SettleStart;
            stage := Lq;
          }
        case Sampling =>
      }
    }

    method XmcLq()
      requires Valid()
      modifies this
      ensures Valid() && State() == LqSlow(old(State()))
    {
      match sub {
        case SettleStart =>
          BeginSettling(Lq);
          acc1 := 0;
        case SettleWait =>
          var due := SettlingIsDue();
          if due {
            startTick := pTicks;
            sub := Sampling;
          }
        case Sampling =>
          if counter == 0 {
            trace := trace + [Computed(Lq, acc0, acc1)];
            sub := SettleStart;
            stage := Rs;
          }
      }
    }
  }
}
