/** Space-vector modulation on the simulated bridge: from an alpha-beta voltage to three saturated duty cycles. */
module SpaceVector {
  import opened Words
  import FocVoltage

  const HALF := 16384
  const SQRT3_BY_2 := 28378

  datatype Sector = Float | Trap1 | Trap2 | Trap3 | Trap4 | Trap5 | Trap6 | Svm1 | Svm2 | Svm3 | Svm4 | Svm5 | Svm6

  datatype PhaseState = PhaseFloat | HPwm | LPwm | Comp | HOn | LOn

  datatype Mode = NoMode | TrapMode | SvmMode

  datatype Triple = Triple(u: int, v: int, w: int)

  predicate IsSvm(s: Sector) {
    s.Svm1? || s.Svm2? || s.Svm3? || s.Svm4? || s.Svm5? || s.Svm6?
  }

  predicate IsTrap(s: Sector) {
    s.Trap1? || s.Trap2? || s.Trap3? || s.Trap4? || s.Trap5? || s.Trap6?
  }

  /** The three phase voltages in Q15. */
  function Phases(alpha: int, beta: int): Triple {
    Triple(alpha, (-HALF * alpha + SQRT3_BY_2 * beta) / 0x8000, (-HALF * alpha - SQRT3_BY_2 * beta) / 0x8000)
  }

  function SectorOf(p: Triple): Sector {
    var code := (if p.w >= 0 then 4 else 0) + (if p.v >= 0 then 2 else 0) + (if p.u >= 0 then 1 else 0);
    match code
    case 1 => Svm1
    case 3 => Svm2
    case 2 => Svm3
    case 6 => Svm4
    case 4 => Svm5
    case 5 => Svm6
    case _ => Float
  }

  lemma NeverTrap(p: Triple)
    ensures !IsTrap(SectorOf(p))
  {
  }

  function Max(p: Triple): int {
    if p.u >= p.v && p.u >= p.w then p.u else if p.v >= p.w then p.v else p.w
  }

  function Min(p: Triple): int {
    if p.u <= p.v && p.u <= p.w then p.u else if p.v <= p.w then p.v else p.w
  }

  function Span(p: Triple): int { Max(p) - Min(p) }

  function Shift(p: Triple, c: int): Triple {
    Triple(p.u + c, p.v + c, p.w + c)
  }

  /** The zero-sequence offset. */
  function Offset(p: Triple): int { (Max(p) + Min(p)) / 2 }

  /** The duty cycles before they are stored in 16 bits. */
  function Duties(alpha: int, beta: int): Triple {
    var p := Phases(alpha, beta);
    Shift(p, HALF - Offset(p))
  }

  /** How far the outermost phase is from half. */
  function Deviation(p: Triple): int {
    if Max(p) - HALF > HALF - Min(p) then Max(p) - HALF else HALF - Min(p)
  }

  function Stored(p: Triple): Triple {
    Triple(ToI16(p.u), ToI16(p.v), ToI16(p.w))
  }

  /** As the macro does it: below the minimum becomes zero. */
  function Saturate(d: int, min: int, max: int): int {
    if d > max then max else if d < min then 0 else d
  }

  function Saturated(p: Triple, min: int, max: int): Triple {
    Triple(Saturate(p.u, min, max), Saturate(p.v, min, max), Saturate(p.w, min, max))
  }

  // ---------- Properties of the map ----------

  /**
   * Line-to-line voltages are those of the phases, and no other whole common offset keeps the phases closer to half.
   */
  lemma OffsetIsBest(alpha: int, beta: int, other: int)
    ensures var p, d := Phases(alpha, beta), Duties(alpha, beta);
            && d.u - d.v == p.u - p.v && d.v - d.w == p.v - p.w
            && Deviation(d) <= Deviation(Shift(p, other))
            && Deviation(d) == (Span(p) + 1) / 2
  {
    hide Phases;
  }

  /** All duties are in range exactly up to a span of 32766. */
  lemma InRangeIff(alpha: int, beta: int)
    ensures var d := Duties(alpha, beta);
            (0 <= Min(d) && Max(d) <= 0x7FFF) <==> Span(Phases(alpha, beta)) <= 32766
  {
    hide Phases;
  }

  /** Every vector inside a circle just under 32768 / sqrt(3). */
  lemma CircleIsInRange(alpha: i16, beta: i16)
    requires alpha * alpha + beta * beta <= 18916 * 18916
    ensures var d := Duties(alpha, beta); 0 <= Min(d) && Max(d) <= 0x7FFF
  {
    InRangeIff(alpha, beta);
    SpanInCircle(alpha, beta);
  }

  /** The phases are the projections on axes at 0, 120 and 240 degrees, rounded down, with 28378/32768 for sin 120. */
  lemma PhasesMeaning(alpha: int, beta: int)
    ensures var p := Phases(alpha, beta);
            && p.u == alpha
            && 32768 * p.v <= -16384 * alpha + 28378 * beta < 32768 * (p.v + 1)
            && 32768 * p.w <= -16384 * alpha - 28378 * beta < 32768 * (p.w + 1)
  {
  }

  /** Only the zero vector leaves the bridge without a sector. */
  lemma FloatIffZero(alpha: int, beta: int)
    ensures SectorOf(Phases(alpha, beta)) == Float <==> alpha == 0 && beta == 0
  {
  }

  /**
   * The six sectors are the 60 degree wedges around 0, 60, ... 300 degrees, bounded by the lines where a phase is
   * zero.
   */
  lemma SectorIsWedge(alpha: int, beta: int)
    requires alpha != 0 || beta != 0
    ensures var s, a, b := SectorOf(Phases(alpha, beta)), 16384 * alpha, 28378 * beta;
            && (s == Svm1 <==> -a < b < a)
            && (s == Svm2 <==> 0 <= a <= b)
            && (s == Svm3 <==> a < 0 && b > -a)
            && (s == Svm4 <==> a < 0 && a <= b <= -a)
            && (s == Svm5 <==> a < 0 && b < a)
            && (s == Svm6 <==> 0 <= a <= -b)
  {
    var x, y := -HALF * alpha + SQRT3_BY_2 * beta, -HALF * alpha - SQRT3_BY_2 * beta;
    assert x / 0x8000 >= 0 <==> x >= 0;
    assert y / 0x8000 >= 0 <==> y >= 0;
  }

  lemma SpanInCircle(alpha: i16, beta: i16)
    requires alpha * alpha + beta * beta <= 18916 * 18916
    ensures Span(Phases(alpha, beta)) <= 32766
  {
    var p := Phases(alpha, beta);
    Project(49152, 28378, alpha, beta);
    Project(49152, -28378, alpha, beta);
    Project(0, 56756, alpha, beta);
  }

  /** The projection of a vector of length 18916 on a direction. */
  lemma Project(a: int, b: int, x: int, y: int)
    requires x * x + y * y <= 18916 * 18916 && a * a + b * b <= 3221243536
    ensures -32765 * 0x8000 <= a * x + b * y <= 32765 * 0x8000
  {
    var s, n, r := a * x + b * y, a * a + b * b, x * x + y * y;
    assert x * x >= 0 && y * y >= 0;
    FocVoltage.Cauchy(a, b, x, y);
    FocVoltage.Scale(n, 3221243536, r);
    FocVoltage.Scale(r, 18916 * 18916, 3221243536);
    NoLarger(s, 32765 * 0x8000);
  }

  lemma NoLarger(s: int, m: int)
    requires m >= 0 && s * s <= m * m
    ensures -m <= s <= m
  {
    if s > m { FocVoltage.StrictSquare(m, s); }
    if -s > m { FocVoltage.StrictSquare(m, -s); }
  }

  /**
   * What is written is the saturated duty exactly up to that span. Beyond it, the highest phase wraps and is written
   * as 0.
   */
  lemma WrittenIff(alpha: i16, beta: i16, min: int, max: int)
    requires 0 <= min <= max <= 0x7FFF && max > 0
    ensures var d := Duties(alpha, beta);
            && (Saturated(Stored(d), min, max) == Saturated(d, min, max) <==> Span(Phases(alpha, beta)) <= 32766)
            && (Span(Phases(alpha, beta)) > 32766 ==>
                 (d.u == Max(d) ==> Saturate(ToI16(d.u), min, max) == 0)
                 && (d.v == Max(d) ==> Saturate(ToI16(d.v), min, max) == 0)
                 && (d.w == Max(d) ==> Saturate(ToI16(d.w), min, max) == 0))
  {
    hide Phases, ToI16, Duties, Saturate;
    PhasesBounded(alpha, beta);
    var d := Duties(alpha, beta);
    DutyRange(alpha, beta);
    StoredDuty(d.u, min, max);
    StoredDuty(d.v, min, max);
    StoredDuty(d.w, min, max);
  }

  /** A duty is written unchanged exactly if it is zero or within the limits. */
  lemma WrittenUnchangedIff(alpha: i16, beta: i16, min: int, max: int)
    requires 0 <= min <= max <= 0x7FFF && max > 0
    ensures var d := Duties(alpha, beta);
            var e := Saturated(Stored(d), min, max);
            && (e.u == d.u <==> d.u == 0 || min <= d.u <= max)
            && (e.v == d.v <==> d.v == 0 || min <= d.v <= max)
            && (e.w == d.w <==> d.w == 0 || min <= d.w <= max)
  {
    hide Phases, ToI16, Duties, Saturate;
    PhasesBounded(alpha, beta);
    var d := Duties(alpha, beta);
    DutyRange(alpha, beta);
    OneUnchanged(d.u, min, max);
    OneUnchanged(d.v, min, max);
    OneUnchanged(d.w, min, max);
  }

  lemma OneUnchanged(d: int, min: int, max: int)
    requires 0 <= min <= max <= 0x7FFF && -0x8000 <= d <= 0x1_0000
    ensures Saturate(ToI16(d), min, max) == d <==> d == 0 || min <= d <= max
  {
    hide ToI16;
    StoredValue(d);
  }

  /** What fails: full scale along the first axis has span 49151, and the first phase is driven with 0, not `max`. */
  lemma FullScaleWraps(min: int, max: int)
    requires 0 <= min <= max <= 0x7FFF && max > 0
    ensures var d := Duties(32767, 0);
            && Span(Phases(32767, 0)) == 49151 && d.u == Max(d) == 40960
            && Saturated(d, min, max).u == max && Saturated(Stored(d), min, max).u == 0
  {
  }

  lemma DutyRange(alpha: int, beta: int)
    ensures var p, d := Phases(alpha, beta), Duties(alpha, beta);
            Max(d) == HALF + (Span(p) + 1) / 2 && Min(d) == HALF - Span(p) / 2
  {
    hide Phases;
  }

  /** One duty of the span's range, as stored in 16 bits. */
  lemma StoredDuty(d: int, min: int, max: int)
    requires 0 <= min <= max <= 0x7FFF && max > 0 && -0x8000 <= d <= 0x1_0000
    ensures Saturate(ToI16(d), min, max) == Saturate(d, min, max) <==> d <= 0x7FFF
    ensures d > 0x7FFF ==> Saturate(ToI16(d), min, max) == 0
  {
    hide ToI16;
    StoredValue(d);
  }

  lemma PhasesBounded(alpha: i16, beta: i16)
    ensures Span(Phases(alpha, beta)) <= 98304
  {
  }

  lemma StoredValue(d: int)
    requires -0x8000 <= d < 0x1_8000
    ensures ToI16(d) == if d <= 0x7FFF then d else d - 0x1_0000
  {
  }

  // ---------- The bridge ----------

  function TrapMap(s: Sector): seq<PhaseState>
    requires IsTrap(s)
  {
    match s
    case Trap1 => [Comp, LOn, PhaseFloat]
    case Trap2 => [Comp, PhaseFloat, LOn]
    case Trap3 => [PhaseFloat, Comp, LOn]
    case Trap4 => [LOn, Comp, PhaseFloat]
    case Trap5 => [LOn, PhaseFloat, Comp]
    case _ => [PhaseFloat, LOn, Comp]
  }

  /** The voltage a phase is driven to: up while it switches or is held high, down while it is held low. */
  function Pull(state: PhaseState): int {
    match state
    case LOn => -1
    case Comp => 1
    case HOn => 1
    case _ => 0
  }

  /** Direction of the driven voltage: twice its alpha, and 2 / sqrt(3) times its beta component. */
  function Direction(s: Sector): (int, int)
    requires IsTrap(s)
  {
    var t := TrapMap(s);
    (2 * Pull(t[0]) - Pull(t[1]) - Pull(t[2]), Pull(t[1]) - Pull(t[2]))
  }

  function NextTrap(s: Sector): Sector
    requires IsTrap(s)
  {
    match s
    case Trap1 => Trap2
    case Trap2 => Trap3
    case Trap3 => Trap4
    case Trap4 => Trap5
    case Trap5 => Trap6
    case _ => Trap1
  }

  /** Every sector turns the voltage by 60 degrees; the second points to 30 degrees. */
  lemma TrapTurns(s: Sector)
    requires IsTrap(s)
    ensures var (a, b), (a', b') := Direction(s), Direction(NextTrap(s));
            && 2 * a' == a - 3 * b && 2 * b' == a + b
            && Direction(Trap2) == (3, 1)
  {
  }

  /** The phase states a sector stands for. */
  function StatesOf(s: Sector): seq<PhaseState>
    requires !s.Float?
  {
    if IsTrap(s) then TrapMap(s) else [Comp, Comp, Comp]
  }

  /** A phase held low or high overrides its duty. */
  function Driven(state: PhaseState, duty: int): int {
    match state
    case LOn => 0
    case HOn => 0x7FFF
    case _ => duty
  }

  class Bridge {
    const dutyMin: u16
    const dutyMax: u16
    var mode: Mode
    var sectorLast: Sector
    var phaseState: seq<PhaseState>
    /** What the simulated inverter is given: a drive flag and a duty in 32767ths for each phase. */
    var drive: seq<bool>
    var duty: seq<int>

    ghost predicate Valid()
      reads this
    {
      && |phaseState| == |drive| == |duty| == 3
      && dutyMin <= dutyMax <= 0x7FFF
      && (forall i :: 0 <= i < 3 ==> drive[i] == !phaseState[i].PhaseFloat?)
      && (!sectorLast.Float? ==> phaseState == StatesOf(sectorLast))
    }

    method WritePhaseState(states: seq<PhaseState>)
      requires |states| == 3
      modifies this`phaseState, this`drive
      ensures phaseState == states && |drive| == 3 && forall i :: 0 <= i < 3 ==> drive[i] == !states[i].PhaseFloat?
    {
      drive := [states[0] != PhaseFloat, states[1] != PhaseFloat, states[2] != PhaseFloat];
      phaseState := states;
    }

    method WritePhaseDuty(u: i16, v: i16, w: i16)
      requires |phaseState| == 3
      modifies this`duty
      ensures duty == [Driven(phaseState[0], Saturate(u, dutyMin, dutyMax)),
                       Driven(phaseState[1], Saturate(v, dutyMin, dutyMax)),
                       Driven(phaseState[2], Saturate(w, dutyMin, dutyMax))]
      ensures forall i | 0 <= i < 3 :: var d: int := [u, v, w][i];
                duty[i] == if phaseState[i] == LOn then 0 else if phaseState[i] == HOn then 32767
                           else if d > dutyMax then dutyMax else if d < dutyMin then 0 else d
    {
      duty := [Saturate(u, dutyMin, dutyMax), Saturate(v, dutyMin, dutyMax), Saturate(w, dutyMin, dutyMax)];
      for i := 0 to 3
        invariant |duty| == 3
        invariant var d := Saturate(u, dutyMin, dutyMax); duty[0] == if i > 0 then Driven(phaseState[0], d) else d
        invariant var d := Saturate(v, dutyMin, dutyMax); duty[1] == if i > 1 then Driven(phaseState[1], d) else d
        invariant var d := Saturate(w, dutyMin, dutyMax); duty[2] == if i > 2 then Driven(phaseState[2], d) else d
      {
        if phaseState[i] == LOn {
          duty := duty[i := 0];
        } else if phaseState[i] == HOn {
          duty := duty[i := 0x7FFF];
        }
      }
    }

    constructor (dutyMin: u16, dutyMax: u16)
      requires dutyMin <= dutyMax <= 0x7FFF
      ensures Valid() && this.dutyMin == dutyMin && this.dutyMax == dutyMax && sectorLast == Float
    {
      this.dutyMin, this.dutyMax := dutyMin, dutyMax;
      mode, sectorLast := NoMode, Float;
      phaseState, drive, duty := [PhaseFloat, PhaseFloat, PhaseFloat], [false, false, false], [0, 0, 0];
    }

    method WriteFloat()
      requires Valid()
      modifies this
      ensures Valid() && sectorLast == Float && mode == old(mode)
      ensures phaseState == [PhaseFloat, PhaseFloat, PhaseFloat] && drive == [false, false, false] && duty == [0, 0, 0]
    {
      WritePhaseState([PhaseFloat, PhaseFloat, PhaseFloat]);
      WritePhaseDuty(0, 0, 0);
      sectorLast := Float;
    }

    /** One phase switches, one is held low and one floats, as the sector says. */
    method WriteTrap(sector: Sector, dutyQ15: u16)
      requires Valid()
      modifies this
      ensures Valid()
      ensures sectorLast == if IsTrap(sector) then sector else old(sectorLast)
      ensures mode == if IsTrap(old(sectorLast)) then old(mode) else TrapMode
      ensures IsTrap(sector) ==> phaseState == TrapMap(sector)
      ensures IsTrap(sector) ==>
        forall i :: 0 <= i < 3 ==> duty[i] == Driven(phaseState[i], Saturate(ToI16(dutyQ15), dutyMin, dutyMax))
      ensures !IsTrap(sector) ==> phaseState == old(phaseState) && duty == old(duty) && drive == old(drive)
    {
      if !IsTrap(sectorLast) { mode := TrapMode; }
      if !IsTrap(sector) { return; }
      if sectorLast != sector {
        WritePhaseState(TrapMap(sector));
        sectorLast := sector;
      }
      var d := ToI16(dutyQ15);
      WritePhaseDuty(d, d, d);
    }

    static method ZeroSequence(u: int, v: int, w: int) returns (voff: int)
      ensures voff == Offset(Triple(u, v, w))
    {
      var vmax, vmin := u, u;
      if v > vmax { vmax := v; }
      if w > vmax { vmax := w; }
      if v < vmin { vmin := v; }
      if w < vmin { vmin := w; }
      voff := (vmax + vmin) / 2;
    }

    /** All three phases switch with their saturated duties. */
    method WriteSvm(alpha: i16, beta: i16)
      requires Valid()
      modifies this
      ensures Valid() && phaseState == [Comp, Comp, Comp] && drive == [true, true, true]
      ensures sectorLast == SectorOf(Phases(alpha, beta))
      ensures var d := Saturated(Stored(Duties(alpha, beta)), dutyMin, dutyMax); duty == [d.u, d.v, d.w]
      ensures mode == if IsSvm(old(sectorLast)) then old(mode) else SvmMode
    {
      hide ToI16, SectorOf, Saturate, Max, Min;
      if !IsSvm(sectorLast) {
        WritePhaseState([Comp, Comp, Comp]);
        mode := SvmMode;
      }
      var u: int := alpha;
      var v: int := (-HALF * alpha + SQRT3_BY_2 * beta) / 0x8000;
      var w: int := (-HALF * alpha - SQRT3_BY_2 * beta) / 0x8000;
      var sector := SectorOf(Triple(u, v, w));
      NeverTrap(Triple(u, v, w));
      var voff := ZeroSequence(u, v, w);
      u := (u - voff) + HALF;
      v := (v - voff) + HALF;
      w := (w - voff) + HALF;
      WritePhaseDuty(ToI16(u), ToI16(v), ToI16(w));
      sectorLast := sector;
    }
  }
}
