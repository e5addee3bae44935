/** The overmodulation clamp takes no more voltage away than it has to: its bounds from the other side. */
module FocClampBelow {
  import opened Words
  import opened FocVoltage

  /**
   * An axis falls short of the voltage times limit/index by at most one step of 4096 in the voltage and one in the
   * factor.
   */
  lemma ScaledFromBelow(v: i32, limit: int, index: int)
    requires 0 <= limit < index
    ensures index * (Abs(Scaled(v, limit, index)) + Abs(v) / 4096 + 1) >= limit * (Abs(v) - 4095)
  {
    hide Factor, Abs;
    var k, h := Factor(limit, index), v / 4096;
    FactorBounds(limit, index);
    FactorFromBelow(limit, index);
    HighParts(v);
    ProductSize(h, k);
    FromParts(index, limit, k, Abs(h), Abs(v), Abs(v) / 4096 + 1);
  }

  lemma FromParts(index: nat, limit: nat, k: nat, h: nat, a: nat, c: nat)
    requires limit * 4096 <= index * (k + 1) && a - 4095 <= 4096 * h && h <= c
    ensures index * (h * k + c) >= limit * (a - 4095)
  {
    Scale(limit * 4096, index * (k + 1), h);
    Scale(a - 4095, 4096 * h, limit);
    Scale(h, c, index);
    Gather(index, h, k, limit, c);
    assert limit * (a - 4095) == (a - 4095) * limit;
  }

  lemma FactorFromBelow(limit: int, index: int)
    requires 0 <= limit < index
    ensures limit * 4096 <= index * (Factor(limit, index) + 1)
  {
    assert limit * 4096 < index * (Factor(limit, index) + 1);
  }

  lemma HighParts(v: i32)
    ensures Abs(v) - 4095 <= 4096 * Abs(v / 4096) && Abs(v / 4096) <= Abs(v) / 4096 + 1
  {
  }

  lemma Gather(index: int, h: nat, k: nat, limit: int, c: nat)
    requires limit * 4096 * h <= index * (k + 1) * h && h * index <= c * index
    ensures 4096 * h * limit <= index * (h * k + c)
  {
    assert index * (k + 1) * h == index * (h * k) + h * index;
    assert index * (h * k + c) == index * (h * k) + c * index;
  }

  // ---------- The magnitude ----------

  lemma LinearOfSums(a: nat, b: nat, c: nat, d: nat)
    ensures Linear(a + c, b + d) <= Linear(a, b) + Linear(c, d)
  {
  }

  /** The voltage of an axis without its last step. */
  function Trimmed(v: int): nat { if Abs(v) < 4095 then 0 else Abs(v) - 4095 }

  lemma LinearTrimmed(a: int, b: int)
    ensures Linear(a, b) <= Linear(Trimmed(a), Trimmed(b)) + 179 * 4095
  {
    LinearOfSum(Trimmed(a), Trimmed(b), 4095);
    LinearMonotone(a, b, Trimmed(a) + 4095, Trimmed(b) + 4095, 1, 1);
  }

  lemma LinearOfSteps(a: int, b: int)
    ensures 4096 * Linear(Abs(a) / 4096 + 1, Abs(b) / 4096 + 1) <= Linear(a, b) + 179 * 4096
  {
    LinearMonotone(Abs(a) / 4096 + 1, Abs(b) / 4096 + 1, Abs(a) + 4096, Abs(b) + 4096, 4096, 1);
    LinearOfSum(a, b, 4096);
  }

  lemma TrimmedScaled(v: i32, limit: int, index: int)
    requires 0 <= limit < index
    ensures limit * Trimmed(v) <= index * (Abs(Scaled(v, limit, index)) + (Abs(v) / 4096 + 1))
  {
    ScaledFromBelow(v, limit, index);
    hide Scaled;
    var w := Abs(Scaled(v, limit, index)) + (Abs(v) / 4096 + 1);
    assert limit * 0 == 0 && index * w >= 0;
  }

  lemma LinearCombined(x: nat, y: nat, a: nat, b: nat, c: nat, d: nat, limit: nat, index: nat)
    requires limit * x <= index * (a + c) && limit * y <= index * (b + d)
    ensures limit * Linear(x, y) <= index * (Linear(a, b) + Linear(c, d))
  {
    hide Abs, Linear;
    AbsOfNat(x);
    AbsOfNat(y);
    AbsOfNat(a + c);
    AbsOfNat(b + d);
    LinearMonotone(x, y, a + c, b + d, limit, index);
    LinearOfSums(a, b, c, d);
    Scale(Linear(a + c, b + d), Linear(a, b) + Linear(c, d), index);
  }

  lemma LinearScaled(vd: i32, vq: i32, limit: int, index: int)
    requires 0 <= limit < index
    ensures var w := Linear(Scaled(vd, limit, index), Scaled(vq, limit, index));
            limit * Linear(Trimmed(vd), Trimmed(vq)) <= index * (w + Linear(Abs(vd) / 4096 + 1, Abs(vq) / 4096 + 1))
  {
    hide Scaled, Trimmed, Linear, Abs;
    var wd, wq := Scaled(vd, limit, index), Scaled(vq, limit, index);
    TrimmedScaled(vd, limit, index);
    TrimmedScaled(vq, limit, index);
    LinearOfAbs(wd, wq);
    LinearCombined(Trimmed(vd), Trimmed(vq), Abs(wd), Abs(wq), Abs(vd) / 4096 + 1, Abs(vq) / 4096 + 1, limit, index);
  }

  /**
   * The magnitude after the clamp, times the old index, falls short of the limit times the old magnitude by 5727 units
   * of the one, and by six units and one part in 4096 of the other.
   */
  lemma ClampedMagnitudeFromBelow(vd: i32, vq: i32, limit: int, index: int)
    requires 0 <= limit < index && Abs(vd) <= INT32_MAX && Abs(vq) <= INT32_MAX
    ensures var r, r' := Magnitude(vd, vq), Magnitude(Scaled(vd, limit, index), Scaled(vq, limit, index));
            index * (4096 * r' + r + 6 * 4096) >= limit * (4096 * (r - 5727))
  {
    hide Scaled, Trimmed, Linear, Abs, Magnitude;
    ScaledFits(vd, limit, index);
    ScaledFits(vq, limit, index);
    LinearScaled(vd, vq, limit, index);
    var wd, wq := Scaled(vd, limit, index), Scaled(vq, limit, index);
    AbsFits(wd, wq);
    EstimateIsLinear(wd, wq);
    EstimateIsLinear(vd, vq);
    LinearTrimmed(vd, vq);
    LinearOfSteps(vd, vq);
    var c, t := Linear(Abs(vd) / 4096 + 1, Abs(vq) / 4096 + 1), Linear(Trimmed(vd), Trimmed(vq));
    Balance(index, limit, Magnitude(vd, vq), Magnitude(wd, wq), Linear(vd, vq), Linear(wd, wq), c, t);
  }

  lemma AbsOfNat(x: nat)
    ensures Abs(x) == x
  {
  }

  lemma LinearOfAbs(a: int, b: int)
    ensures Linear(Abs(a), Abs(b)) == Linear(a, b)
  {
  }

  /** The estimates put together; all products are with `index` or `limit`. */
  lemma Balance(index: int, limit: int, r: int, r': int, l: int, w: int, c: int, t: int)
    requires 0 <= limit && 0 <= index && limit * t <= index * (w + c)
    requires l <= t + 179 * 4095 && 4096 * c <= l + 179 * 4096
    requires 128 * r <= l <= 128 * (r + 3) && w <= 128 * (r' + 3)
    ensures index * (4096 * r' + r + 6 * 4096) >= limit * (4096 * (r - 5727))
  {
    Scale(128 * (r - 5727), t, limit);
    Scale(4096 * (w + c), 128 * (4096 * r' + r + 6 * 4096), index);
    assert 4096 * (w + c) * index == 4096 * (index * (w + c)) && t * limit == limit * t;
    Shares(index, limit, 4096 * r' + r + 6 * 4096, r - 5727);
  }

  lemma Shares(index: int, limit: int, x: int, y: int)
    requires 4096 * (128 * y * limit) <= 128 * x * index
    ensures limit * (4096 * y) <= index * x
  {
    assert 128 * x * index == 128 * (index * x);
    assert 4096 * (128 * y * limit) == 128 * (limit * (4096 * y));
  }

  // ---------- The index ----------

  /**
   * The index computed again from the clamped pair falls short of the limit by at most one unit, one part in 4096 of
   * the old index, and a slack that depends only on the bus limit.
   */
  lemma ClampedIndexFromBelow(vd: i32, vq: i32, limit: int, l: int)
    requires Abs(vd) <= INT32_MAX && Abs(vq) <= INT32_MAX && l > 0 && Magnitude(vd, vq) >= 0
    requires 0 <= limit < Index(Magnitude(vd, vq), l)
    ensures var index := Index(Magnitude(vd, vq), l);
            var r' := Magnitude(Scaled(vd, limit, index), Scaled(vq, limit, index));
            r' >= 0 && 4096 * ((limit - Index(r', l) - 1) * l) <= (index + 1) * l + 4096 * 7720
  {
    var index := Index(Magnitude(vd, vq), l);
    ClampedMagnitudeFromBelow(vd, vq, limit, index);
    ScaledFits(vd, limit, index);
    ScaledFits(vq, limit, index);
    AbsFits(Scaled(vd, limit, index), Scaled(vq, limit, index));
    MagnitudeIsNatural(Scaled(vd, limit, index), Scaled(vq, limit, index));
    hide Abs, Magnitude, Scaled;
    var r, r' := Magnitude(vd, vq), Magnitude(Scaled(vd, limit, index), Scaled(vq, limit, index));
    IndexBounds(r, l);
    IndexBounds(r', l);
    hide Index;
    FromBelow(index, limit, l, r, r', Index(r', l));
  }

  lemma FromBelow(index: int, limit: int, l: int, r: int, r': int, i': int)
    requires 0 <= limit < index && l > 0
    requires 0x1_0000 * (index * l) <= SQRT3_Q3P12 * r && SQRT3_Q3P12 * r < 0x1_0000 * (index * l + l + SQRT3_Q3P12)
    requires SQRT3_Q3P12 * r' < 0x1_0000 * (i' * l + l + SQRT3_Q3P12)
    requires index * (4096 * r' + r + 6 * 4096) >= limit * (4096 * (r - 5727))
    ensures 4096 * ((limit - i' - 1) * l) <= (index + 1) * l + 4096 * 7720
  {
    var a, b := index * l, i' * l;
    var room := 4096 * (b + l + SQRT3_Q3P12) + a + l + SQRT3_Q3P12 + 4096;
    var low := 4096 * (a - 620);
    Through(index, limit, 4096 * r' + r + 6 * 4096, 4096 * (r - 5727), SQRT3_Q3P12, 0x1_0000, room, low);
    Cancel(index, limit, l, room);
    assert (limit - i' - 1) * l == limit * l - b - l && (index + 1) * l == a + l;
  }

  lemma Through(i: nat, j: nat, x: int, y: int, s: nat, k: nat, p: int, q: int)
    requires k > 0 && j * y <= i * x && s * x <= k * p && k * q <= s * y
    ensures j * q <= i * p
  {
    Scale(k * q, s * y, j);
    Scale(s * x, k * p, i);
    Scale(j * y, i * x, s);
    Swap(j, k, q);
    Swap(j, s, y);
    Swap(i, s, x);
    Swap(i, k, p);
    Divide(k, j * q, i * p);
  }

  lemma Divide(k: nat, x: int, y: int)
    requires k > 0 && k * x <= k * y
    ensures x <= y
  {
    if x > y { StrictScale(y, x, k); }
  }

  lemma Cancel(index: int, limit: int, l: int, room: int)
    requires 0 <= limit < index && limit * (4096 * (index * l - 620)) <= index * room
    ensures 4096 * (limit * l) - 4096 * 620 <= room
  {
    var x := 4096 * (limit * l) - 4096 * 620;
    Swap(limit, index, l);
    assert limit * (4096 * (index * l - 620)) == 4096 * (limit * (index * l)) - 4096 * 620 * limit;
    assert index * x == 4096 * (index * (limit * l)) - 4096 * 620 * index;
    Divide(index, x, room);
  }

  lemma StrictScale(x: int, y: int, k: int)
    requires x < y && k > 0
    ensures k * x < k * y
  {
  }
}
