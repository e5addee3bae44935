/** Magnitude estimate and overmodulation clamp of the field-oriented controller, in 32-bit fixed point. */
module FocVoltage {
  import opened Words

  // The coefficients 127/128, 27/32, 3/16 and 71/128 times INT32_MAX, truncated.
  const A0 := 2130706431
  const A1 := 1811939327
  const B0 := 402653183
  const B1 := 1191182335
  const SQRT3_Q3P12 := 7094
  const INT32_MAX := 0x7FFF_FFFF
  const INT32_MIN := -0x8000_0000
  const TWO_TO_THE_62 := 0x4000_0000_0000_0000

  function Abs(x: int): nat { if x < 0 then -x else x }

  /** The larger of the two linear estimates, for the larger and the smaller component. */
  function Estimate(max: nat, min: nat): (r: int) {
    var z0, z1 := (A0 * max + B0 * min) / 0x8000_0000, (A1 * max + B1 * min) / 0x8000_0000;
    if z0 > z1 then z0 else z1
  }

  /** The estimate before it is stored in 32 bits. */
  function Magnitude(a: int, b: int): int {
    if Abs(a) > Abs(b) then Estimate(Abs(a), Abs(b)) else Estimate(Abs(b), Abs(a))
  }

  /** The exact linear estimate, times 128. */
  function Linear(a: int, b: int): nat {
    var max, min := if Abs(a) > Abs(b) then Abs(a) else Abs(b), if Abs(a) > Abs(b) then Abs(b) else Abs(a);
    if 127 * max + 24 * min > 108 * max + 71 * min then 127 * max + 24 * min else 108 * max + 71 * min
  }

  /** Truncated coefficients and shifts lose less than three units. */
  lemma EstimateIsLinear(a: int, b: int)
    requires Abs(a) <= INT32_MAX && Abs(b) <= INT32_MAX
    ensures 128 * Magnitude(a, b) <= Linear(a, b) <= 128 * (Magnitude(a, b) + 3)
  {
  }

  lemma Square(x: nat, y: nat)
    requires x <= y
    ensures x * x <= y * y
  {
  }

  lemma Cauchy(p: int, q: int, x: int, y: int)
    ensures (p * x + q * y) * (p * x + q * y) <= (p * p + q * q) * (x * x + y * y)
  {
    var d := q * x - p * y;
    assert d * d >= 0;
    calc {
      (p * x + q * y) * (p * x + q * y) + d * d;
      p * x * (p * x) + q * y * (q * y) + q * x * (q * x) + p * y * (p * y);
      (p * p + q * q) * (x * x + y * y);
    }
  }

  lemma AbsSquare(x: int)
    ensures Abs(x) * Abs(x) == x * x
  {
  }

  /** Cauchy-Schwarz for the two coefficient pairs: 127^2 + 24^2 == 108^2 + 71^2 == 16705. */
  lemma LinearFromAbove(a: int, b: int)
    ensures Linear(a, b) * Linear(a, b) <= 16705 * (a * a + b * b)
  {
    var x, y := Abs(a), Abs(b);
    AbsSquare(a);
    AbsSquare(b);
    Cauchy(127, 24, x, y);
    Cauchy(108, 71, x, y);
    Cauchy(127, 24, y, x);
    Cauchy(108, 71, y, x);
    hide Abs;
    var l := Linear(a, b);
    assert l == 127 * x + 24 * y || l == 108 * x + 71 * y || l == 127 * y + 24 * x || l == 108 * y + 71 * x;
  }

  /** The linear estimate, 128 times too large, is at least 179 / sqrt(2) times the true magnitude. */
  lemma LinearFromBelow(a: int, b: int)
    ensures 2 * (Linear(a, b) * Linear(a, b)) >= 32041 * (a * a + b * b)
  {
    AbsSquare(a);
    AbsSquare(b);
    var x, y := Abs(a), Abs(b);
    if x > y { Below(x, y); } else { Below(y, x); }
  }

  /** The higher of the two lines stays above that circle at every slope. */
  lemma Below(x: nat, y: nat)
    requires y <= x
    ensures var p, q := 127 * x + 24 * y, 108 * x + 71 * y;
            var l := if p > q then p else q;
            2 * (l * l) >= 32041 * (x * x + y * y)
  {
    Slopes(x, y);
    SquareOfSum(127, 24, x, y);
    SquareOfSum(108, 71, x, y);
    Quadratic(x, y, x * x, x * y, y * y);
  }

  /** What the position of the slope among the lines says about the products. */
  lemma Slopes(x: nat, y: nat)
    requires y <= x
    ensures y * y >= 0 && y * y <= x * y
    ensures 47 * y < 19 * x ==> 47 * (y * y) <= 19 * (x * y) && 47 * (x * y) <= 19 * (x * x)
    ensures 47 * y >= 19 * x ==> 19 * (x * x) + 47 * (y * y) <= 66 * (x * y)
  {
    Scale(y, x, y);
    if 47 * y < 19 * x {
      ScaleBoth(47, y, 19, x, y);
      ScaleBoth(47, y, 19, x, x);
      Commute(x, y);
    } else {
      ScaleBoth(19, x, 47, y, x - y);
      Expand(x, x, y);
      Expand(y, x, y);
      Commute(x, y);
    }
  }

  lemma ScaleBoth(a: int, x: int, b: int, y: int, k: nat)
    requires a * x <= b * y
    ensures a * (x * k) <= b * (y * k)
  {
    Scale(a * x, b * y, k);
    Associate(a, x, k);
    Associate(b, y, k);
  }

  lemma Associate(a: int, x: int, k: int)
    ensures a * x * k == a * (x * k)
  {
  }

  lemma Commute(x: int, y: int)
    ensures x * y == y * x
  {
  }

  lemma Expand(a: int, x: int, y: int)
    ensures a * (x - y) == a * x - a * y
  {
  }

  lemma SquareOfSum(a: int, b: int, x: int, y: int)
    ensures (a * x + b * y) * (a * x + b * y) == a * a * (x * x) + 2 * a * b * (x * y) + b * b * (y * y)
  {
    assert a * x * (a * x) == a * a * (x * x) && b * y * (b * y) == b * b * (y * y);
    assert a * x * (b * y) == a * b * (x * y);
  }

  /** The two quadratic forms against the circle, their monomials taken as numbers. */
  lemma Quadratic(x: nat, y: nat, xx: int, xy: int, yy: int)
    requires 0 <= yy <= xy
    requires if 47 * y < 19 * x then 47 * yy <= 19 * xy && 47 * xy <= 19 * xx else 19 * xx + 47 * yy <= 66 * xy
    ensures 47 * y < 19 * x ==> 2 * (16129 * xx + 6096 * xy + 576 * yy) >= 32041 * (xx + yy)
    ensures 47 * y >= 19 * x ==> 2 * (11664 * xx + 15336 * xy + 5041 * yy) >= 32041 * (xx + yy)
  {
  }

  lemma Scale(x: int, y: int, k: nat)
    requires x <= y
    ensures x * k <= y * k
  {
  }

  /** The absolute value as the firmware takes it: INT32_MIN stays negative. */
  function Abs32(i: i32): i32 { ToI32(if i < 0 then 0 - i as int else i) }

  /** The estimate in 32-bit steps, whatever the components. */
  function Stored(i1: i32, i2: i32): i32 {
    var a, b := Abs32(i1), Abs32(i2);
    var max, min := if a > b then a else b, if a > b then b else a;
    var z0, z1 := ToI32((A0 * max + B0 * min) / 0x8000_0000), ToI32((A1 * max + B1 * min) / 0x8000_0000);
    if z0 > z1 then z0 else z1
  }

  /** No component is INT32_MIN, and neither weighted sum of the larger and the smaller one reaches 2^62. */
  predicate Representable(i1: i32, i2: i32) {
    var max, min := if Abs(i1) > Abs(i2) then Abs(i1) else Abs(i2), if Abs(i1) > Abs(i2) then Abs(i2) else Abs(i1);
    && i1 != INT32_MIN && i2 != INT32_MIN
    && A0 * max + B0 * min < TWO_TO_THE_62 && A1 * max + B1 * min < TWO_TO_THE_62
  }

  method MaxaMinb(i1: i32, i2: i32) returns (r: i32)
    ensures r == Stored(i1, i2)
    ensures r == Magnitude(i1, i2) <==> Representable(i1, i2)
  {
    hide ToI32, Magnitude, Representable;
    var a := ToI32(if i1 < 0 then 0 - i1 as int else i1);
    var b := ToI32(if i2 < 0 then 0 - i2 as int else i2);
    var max, min := b, a;
    if a > b {
      max := a;
      min := b;
    }
    var z0 := ToI32((A0 * max + B0 * min) / 0x8000_0000);
    var z1 := ToI32((A1 * max + B1 * min) / 0x8000_0000);
    r := if z0 > z1 then z0 else z1;
    StoredIsMagnitudeIff(i1, i2);
  }

  /** These are the components for which the estimate fits 32 bits. */
  lemma RepresentableFits(i1: i32, i2: i32)
    ensures Representable(i1, i2) <==> i1 != INT32_MIN && i2 != INT32_MIN && Magnitude(i1, i2) <= INT32_MAX
  {
    if Abs(i1) > Abs(i2) { SumFits(Abs(i1), Abs(i2)); } else { SumFits(Abs(i2), Abs(i1)); }
  }

  lemma SumFits(max: nat, min: nat)
    ensures Estimate(max, min) <= INT32_MAX
       <==> A0 * max + B0 * min < TWO_TO_THE_62 && A1 * max + B1 * min < TWO_TO_THE_62
  {
    Quotient(A0 * max + B0 * min);
    Quotient(A1 * max + B1 * min);
  }

  lemma Quotient(x: int)
    ensures x / 0x8000_0000 <= INT32_MAX <==> x < TWO_TO_THE_62
  {
  }

  lemma StoredFits(i1: i32, i2: i32)
    requires i1 != INT32_MIN && i2 != INT32_MIN && Magnitude(i1, i2) <= INT32_MAX
    ensures Stored(i1, i2) == Magnitude(i1, i2)
  {
    Abs32Is(i1);
    Abs32Is(i2);
    hide ToI32, Estimate, Abs32;
    if Abs(i1) > Abs(i2) { EstimateFits(Abs(i1), Abs(i2)); } else { EstimateFits(Abs(i2), Abs(i1)); }
  }

  lemma StoredTooLow(i1: i32, i2: i32)
    requires (i1 == INT32_MIN) != (i2 == INT32_MIN)
    ensures Stored(i1, i2) < A0 <= Magnitude(i1, i2)
  {
    Abs32Is(i1);
    Abs32Is(i2);
    hide ToI32, Estimate, Abs32;
    LowEstimate(Abs(if i1 == INT32_MIN then i2 else i1));
  }

  lemma Abs32Is(i: i32)
    ensures Abs32(i) == if i == INT32_MIN then INT32_MIN else Abs(i)
  {
  }

  /** INT32_MIN passes for the smaller component and lowers the estimate. */
  lemma LowEstimate(x: nat)
    requires x <= INT32_MAX
    ensures var y0, y1 := (A0 * x + B0 * INT32_MIN) / 0x8000_0000, (A1 * x + B1 * INT32_MIN) / 0x8000_0000;
            ToI32(y0) < A0 && ToI32(y1) < A0 && A0 <= Estimate(0x8000_0000, x)
  {
    var y0, y1 := (A0 * x + B0 * INT32_MIN) / 0x8000_0000, (A1 * x + B1 * INT32_MIN) / 0x8000_0000;
    assert -0x8000_0000 <= y0 < A0 && -0x8000_0000 <= y1 < A0;
    WrapFits(y0);
    WrapFits(y1);
  }

  /** The 32-bit steps compute the estimate exactly when it fits and has no component INT32_MIN. */
  lemma StoredIsMagnitudeIff(i1: i32, i2: i32)
    ensures Stored(i1, i2) == Magnitude(i1, i2) <==> Representable(i1, i2)
  {
    RepresentableFits(i1, i2);
    hide Representable;
    if i1 == INT32_MIN && i2 == INT32_MIN {
      assert Stored(i1, i2) != Magnitude(i1, i2);
    } else if i1 == INT32_MIN || i2 == INT32_MIN {
      StoredTooLow(i1, i2);
    } else if Representable(i1, i2) {
      StoredFits(i1, i2);
    }
  }

  /** What fails: at full scale on both axes the estimate wraps and is negative. */
  lemma FullScaleWraps()
    ensures Stored(INT32_MAX, INT32_MAX) == -1291845636 && Magnitude(INT32_MAX, INT32_MAX) == 3003121660
  {
    var y0, y1 := (A0 * INT32_MAX + B0 * INT32_MAX) / 0x8000_0000, (A1 * INT32_MAX + B1 * INT32_MAX) / 0x8000_0000;
    assert y0 == 2533359612 && y1 == 3003121660;
    assert ToI32(y0) == -1761607684 && ToI32(y1) == -1291845636;
    Abs32Is(INT32_MAX);
  }

  lemma EstimateFits(max: nat, min: nat)
    requires Estimate(max, min) <= INT32_MAX
    ensures var z0, z1 := ToI32((A0 * max + B0 * min) / 0x8000_0000), ToI32((A1 * max + B1 * min) / 0x8000_0000);
            Estimate(max, min) == if z0 > z1 then z0 else z1
  {
    var y0, y1 := (A0 * max + B0 * min) / 0x8000_0000, (A1 * max + B1 * min) / 0x8000_0000;
    assert 0 <= y0 <= INT32_MAX && 0 <= y1 <= INT32_MAX;
    WrapFits(y0);
    WrapFits(y1);
  }

  lemma WrapFits(x: int)
    requires -0x8000_0000 <= x <= INT32_MAX
    ensures ToI32(x) == x
  {
  }

  /**
   * No overflow inside the disc of radius 128 / sqrt(16705) of full scale, and there an error within 1% and 3 units.
   */
  lemma MagnitudeBounds(a: int, b: int)
    requires Abs(a) <= INT32_MAX && Abs(b) <= INT32_MAX
    requires 16705 * (a * a + b * b) <= 16384 * (INT32_MAX * INT32_MAX)
    ensures var r := Magnitude(a, b);
            && 0 <= r <= INT32_MAX
            && 16384 * (r * r) <= 16705 * (a * a + b * b)
            && 32768 * ((r + 3) * (r + 3)) >= 32041 * (a * a + b * b)
  {
    EstimateIsLinear(a, b);
    LinearFromAbove(a, b);
    LinearFromBelow(a, b);
    hide Magnitude, Linear, Abs;
    var r, l := Magnitude(a, b), Linear(a, b);
    MagnitudeIsNatural(a, b);
    Square(128 * r, l);
    Square(l, 128 * (r + 3));
    SquareOf128(r);
    SquareOf128(r + 3);
    if r > INT32_MAX { StrictSquare(INT32_MAX, r); }
  }

  lemma SquareOf128(x: nat)
    ensures (128 * x) * (128 * x) == 16384 * (x * x)
  {
  }

  lemma StrictSquare(x: nat, y: nat)
    requires x < y
    ensures x * x < y * y
  {
  }

  lemma MagnitudeIsNatural(a: int, b: int)
    requires Abs(a) <= INT32_MAX && Abs(b) <= INT32_MAX
    ensures 0 <= Magnitude(a, b)
  {
  }

  // ---------- Overmodulation clamp ----------

  /** Modulation index in Q3.12 for a bus limit of `l` (its high half). */
  function Index(magnitude: nat, l: int): int
    requires l > 0
  {
    magnitude / 0x1_0000 * SQRT3_Q3P12 / l
  }

  /** The factor both axes are scaled by, in Q12, for an index above the limit. */
  function Factor(limit: int, index: int): int
    requires index > 0
  {
    limit * 4096 / index
  }

  /** Division as in C, towards zero. */
  function TruncDiv(a: int, b: int): int
    requires b != 0
  {
    if (a >= 0) == (b > 0) then Abs(a) / Abs(b) else -(Abs(a) / Abs(b))
  }

  function Scaled(v: int, limit: int, index: int): int
    requires index > 0
  {
    v / 4096 * Factor(limit, index)
  }

  class Foc {
    var vd: i32
    var vq: i32
    /** The integrators of the two current controllers. */
    var idState: i32
    var iqState: i32
    const modIdxMax: i16

    constructor (modIdxMax: i16)
      ensures this.modIdxMax == modIdxMax
    {
      this.modIdxMax := modIdxMax;
      vd, vq, idState, iqState := 0, 0, 0, 0;
    }

    /** The clamp of the PWM loop, for a bus whose limit is not zero in its high half. */
    method Clamp(vbusLim: i32) returns (index: int)
      requires 0 <= modIdxMax && vbusLim / 0x1_0000 != 0
      modifies this
      ensures index == TruncDiv(Stored(old(vd), old(vq)) / 0x1_0000 * 7094, vbusLim / 0x1_0000)
      ensures Representable(old(vd), old(vq)) && vbusLim / 0x1_0000 > 0
              ==> index == Index(Magnitude(old(vd), old(vq)), vbusLim / 0x1_0000)
      ensures if index > modIdxMax
              then vd == Scaled(old(vd), modIdxMax, index) && vq == Scaled(old(vq), modIdxMax, index)
                   && idState == vd && iqState == vq
              else vd == old(vd) && vq == old(vq) && idState == old(idState) && iqState == old(iqState)
    {
      hide Stored, Magnitude, TruncDiv, Index, Abs;
      var vmag := MaxaMinb(vd, vq);
      index := TruncDiv(vmag / 0x1_0000 * SQRT3_Q3P12, vbusLim / 0x1_0000);
      if Representable(vd, vq) && vbusLim / 0x1_0000 > 0 { IndexIsQuotient(vd, vq, vmag, vbusLim / 0x1_0000); }
      if index > modIdxMax {
        ScaledFits(vd, modIdxMax, index);
        ScaledFits(vq, modIdxMax, index);
        vd := vd / 4096 * (modIdxMax * 4096 / index);
        vq := vq / 4096 * (modIdxMax * 4096 / index);
        idState := vd;
        iqState := vq;
      }
    }
  }

  lemma IndexIsQuotient(vd: i32, vq: i32, vmag: int, l: int)
    requires Representable(vd, vq) && vmag == Magnitude(vd, vq) && l > 0
    ensures vmag >= 0 && TruncDiv(vmag / 0x1_0000 * SQRT3_Q3P12, l) == Index(vmag, l)
  {
    RepresentableFits(vd, vq);
    MagnitudeIsNatural(vd, vq);
    hide Magnitude, Representable;
    assert vmag / 0x1_0000 * SQRT3_Q3P12 >= 0;
  }

  /** Each scaled product fits 32 bits, keeps its sign, and is the axis times limit/index but for one step of 4096. */
  lemma ScaledFits(v: i32, limit: int, index: int)
    requires 0 <= limit < index
    ensures var w := Scaled(v, limit, index);
            && -0x8000_0000 < w <= INT32_MAX
            && (v >= 0 ==> w >= 0) && (v < 0 ==> w <= 0)
            && index * Abs(w) <= limit * (Abs(v) + 4096)
  {
    var k, h := Factor(limit, index), v / 4096;
    FactorBounds(limit, index);
    hide Factor;
    HighPart(v);
    ProductSize(h, k);
    Scale(Abs(h), 0x8_0000, k);
    assert index * (Abs(h) * k) == index * k * Abs(h);
    Scale(index * k, limit * 4096, Abs(h));
    Scale(4096 * Abs(h), Abs(v) + 4096, limit);
  }

  lemma FactorBounds(limit: int, index: int)
    requires 0 <= limit < index
    ensures 0 <= Factor(limit, index) <= 4095 && index * Factor(limit, index) <= limit * 4096
  {
    var k := Factor(limit, index);
    assert index * k <= limit * 4096 < index * (k + 1);
    if k >= 4096 { Scale(4096, k, index); }
  }

  lemma HighPart(v: i32)
    ensures var h := v / 4096;
            && -0x8_0000 <= h < 0x8_0000 && 4096 * Abs(h) <= Abs(v) + 4096
            && (v >= 0 <==> h >= 0)
  {
  }

  lemma ProductSize(h: int, k: nat)
    ensures Abs(h * k) == Abs(h) * k && (h >= 0 ==> h * k >= 0) && (h < 0 ==> h * k <= 0)
  {
  }

  // ---------- The index after the clamp ----------

  lemma LinearMonotone(a: int, b: int, a': int, b': int, mul: nat, div: nat)
    requires mul * Abs(a) <= div * Abs(a') && mul * Abs(b) <= div * Abs(b')
    ensures mul * Linear(a, b) <= div * Linear(a', b')
  {
    var x, y, x', y' := Abs(a), Abs(b), Abs(a'), Abs(b');
    LinearIsLargest(a, b);
    LinearIsLargest(a', b');
    hide Abs, Linear;
    var l, l' := Linear(a, b), Linear(a', b');
    if l == 127 * x + 24 * y {
      Line(127, 24, x, y, x', y', mul, div, l, l');
    } else if l == 108 * x + 71 * y {
      Line(108, 71, x, y, x', y', mul, div, l, l');
    } else if l == 127 * y + 24 * x {
      Line(127, 24, y, x, y', x', mul, div, l, l');
    } else {
      Line(108, 71, y, x, y', x', mul, div, l, l');
    }
  }

  lemma Line(p: nat, q: nat, x: int, y: int, x': int, y': int, mul: nat, div: nat, l: int, l': int)
    requires mul * x <= div * x' && mul * y <= div * y'
    requires l == p * x + q * y && p * x' + q * y' <= l'
    ensures mul * l <= div * l'
  {
    Sides(p, q, x, y, x', y', mul, div);
    Scale(p * x' + q * y', l', div);
  }

  lemma Sides(p: nat, q: nat, x: int, y: int, x': int, y': int, mul: nat, div: nat)
    requires mul * x <= div * x' && mul * y <= div * y'
    ensures mul * (p * x + q * y) <= div * (p * x' + q * y')
  {
    Scale(mul * x, div * x', p);
    Scale(mul * y, div * y', q);
    assert mul * (p * x + q * y) == mul * x * p + mul * y * q;
    assert div * (p * x' + q * y') == div * x' * p + div * y' * q;
  }

  /** The linear estimate does not depend on the order of its two components: it is the largest of four lines. */
  lemma LinearIsLargest(a: int, b: int)
    ensures var x, y, l := Abs(a), Abs(b), Linear(a, b);
            && l >= 127 * x + 24 * y && l >= 108 * x + 71 * y && l >= 127 * y + 24 * x && l >= 108 * y + 71 * x
            && (l == 127 * x + 24 * y || l == 108 * x + 71 * y || l == 127 * y + 24 * x || l == 108 * y + 71 * x)
  {
  }

  lemma LinearOfSum(a: int, b: int, c: nat)
    ensures Linear(Abs(a) + c, Abs(b) + c) <= Linear(a, b) + 179 * c
  {
  }

  /**
   * The magnitude after the clamp, times the old index, is at most the limit times the old magnitude and 5731 units.
   */
  lemma ClampedMagnitude(vd: i32, vq: i32, limit: int, index: int)
    requires 0 <= limit < index && Abs(vd) <= INT32_MAX && Abs(vq) <= INT32_MAX
    ensures var r' := Magnitude(Scaled(vd, limit, index), Scaled(vq, limit, index));
            index * r' <= limit * (Magnitude(vd, vq) + 5731)
  {
    var wd, wq := Scaled(vd, limit, index), Scaled(vq, limit, index);
    ScaledFits(vd, limit, index);
    ScaledFits(vq, limit, index);
    AbsFits(wd, wq);
    EstimateIsLinear(wd, wq);
    EstimateIsLinear(vd, vq);
    AbsOfSum(vd);
    AbsOfSum(vq);
    LinearMonotone(wd, wq, Abs(vd) + 4096, Abs(vq) + 4096, index, limit);
    LinearOfSum(vd, vq, 4096);
    hide Abs, Linear, Magnitude, Scaled;
    var r, r', l := Magnitude(vd, vq), Magnitude(wd, wq), Linear(vd, vq);
    Scale(128 * r', Linear(wd, wq), index);
    Scale(Linear(Abs(vd) + 4096, Abs(vq) + 4096), 128 * (r + 5731), limit);
    Cancel128(index, r', limit, r + 5731);
  }

  lemma Cancel128(i: int, x: int, j: int, y: int)
    requires 128 * x * i <= 128 * y * j
    ensures i * x <= j * y
  {
    assert 128 * (i * x) <= 128 * (j * y);
  }

  lemma AbsOfSum(v: int)
    ensures Abs(Abs(v) + 4096) == Abs(v) + 4096
  {
  }

  lemma AbsFits(v: int, w: int)
    requires -0x8000_0000 < v <= INT32_MAX && -0x8000_0000 < w <= INT32_MAX
    ensures Abs(v) <= INT32_MAX && Abs(w) <= INT32_MAX
  {
  }

  /**
   * The index computed again from the clamped pair exceeds the limit by at most one unit and a slack that depends only
   * on the bus limit.
   */
  lemma ClampedIndex(vd: i32, vq: i32, limit: int, l: int)
    requires Abs(vd) <= INT32_MAX && Abs(vq) <= INT32_MAX && l > 0 && Magnitude(vd, vq) >= 0
    requires 0 <= limit < Index(Magnitude(vd, vq), l)
    ensures var index := Index(Magnitude(vd, vq), l);
            var r' := Magnitude(Scaled(vd, limit, index), Scaled(vq, limit, index));
            r' >= 0 && (Index(r', l) - limit - 1) * l < 7715
  {
    var index := Index(Magnitude(vd, vq), l);
    ClampedMagnitude(vd, vq, limit, index);
    ScaledFits(vd, limit, index);
    ScaledFits(vq, limit, index);
    AbsFits(Scaled(vd, limit, index), Scaled(vq, limit, index));
    MagnitudeIsNatural(Scaled(vd, limit, index), Scaled(vq, limit, index));
    hide Abs, Magnitude, Scaled;
    var r, r' := Magnitude(vd, vq), Magnitude(Scaled(vd, limit, index), Scaled(vq, limit, index));
    IndexBounds(r, l);
    IndexBounds(r', l);
    hide Index;
    Combine(index, limit, l, r, r', Index(r', l));
  }

  /** The index as a quotient: i * l is 7094 / 65536 of the magnitude, but for the truncated parts. */
  lemma IndexBounds(r: nat, l: int)
    requires l > 0
    ensures var i := Index(r, l);
            i >= 0 && 0x1_0000 * (i * l) <= SQRT3_Q3P12 * r && SQRT3_Q3P12 * r < 0x1_0000 * (i * l + l + SQRT3_Q3P12)
  {
    var h, i := r / 0x1_0000, Index(r, l);
    var p := h * SQRT3_Q3P12;
    assert p >= 0;
    assert p == l * (p / l) + p % l;
    assert i * l == l * (p / l);
  }

  lemma Combine(index: int, limit: int, l: int, r: int, r': int, i': int)
    requires 0 <= limit < index && l > 0 && r >= 0 && i' >= 0
    requires SQRT3_Q3P12 * r < 0x1_0000 * (index * l + l + SQRT3_Q3P12)
    requires index * r' <= limit * (r + 5731)
    requires 0x1_0000 * (i' * l) <= SQRT3_Q3P12 * r'
    ensures (i' - limit - 1) * l < 7715
  {
    var a, b, c := index * l, i' * l, limit * l;
    Chain(index, limit, a + l + 7715, b, r, r');
    Regroup(index, limit, l);
    assert index * (b - c) == index * b - index * c;
    Less(index, limit, b - c, l + 7715);
    assert (i' - limit - 1) * l == b - c - l;
  }

  lemma Chain(index: int, limit: int, room: int, b: int, r: int, r': int)
    requires 0 <= limit && 0 <= index && index * r' <= limit * (r + 5731)
    requires SQRT3_Q3P12 * (r + 5731) <= 0x1_0000 * room && 0x1_0000 * b <= SQRT3_Q3P12 * r'
    ensures index * b <= limit * room
  {
    var s := SQRT3_Q3P12;
    Scale(0x1_0000 * b, s * r', index);
    Scale(s * (r + 5731), 0x1_0000 * room, limit);
    Swap(index, 0x1_0000, b);
    Swap(index, s, r');
    Swap(limit, 0x1_0000, room);
    Swap(limit, s, r + 5731);
    var x, y, u, v := index * b, limit * room, index * r', limit * (r + 5731);
    assert 0x1_0000 * x <= s * u && s * v <= 0x1_0000 * y;
  }

  lemma Regroup(index: int, limit: int, l: int)
    ensures limit * (index * l + l + 7715) == index * (limit * l) + limit * (l + 7715)
  {
    assert limit * (index * l + l + 7715) == limit * (index * l) + limit * (l + 7715);
    Swap(limit, index, l);
  }

  lemma Swap(x: int, y: int, z: int)
    ensures x * (y * z) == y * (x * z)
  {
  }

  lemma Less(index: int, limit: int, d: int, m: int)
    requires 0 <= limit < index && m > 0 && index * d <= limit * m
    ensures d < m
  {
    assert index * m == limit * m + (index - limit) * m;
    assert (index - limit) * m > 0;
    if d >= m { Scale(m, d, index); }
  }
}
