/** The area a box wastes below itself, and the best fit: lowest, then least wasteful, then leftmost of all columns. */
module SkylineWaste {
  import opened Skyline

  /** Columns of segment `i` from `x0` on and left of `end`. */
  function Columns(sky: seq<Point>, i: nat, x0: int, end: int): nat
    requires i + 1 < |sky|
  {
    Max(Min(sky[i + 1].x, end) - Max(sky[i].x, x0), 0)
  }

  /** Area between height `y` and the skyline over those columns of the segments before `g`. */
  function AreaTo(sky: seq<Point>, g: nat, x0: int, end: int, y: int): int
    requires g < |sky|
  {
    if g == 0 then 0 else AreaTo(sky, g - 1, x0, end, y) + Columns(sky, g - 1, x0, end) * (y - sky[g - 1].y)
  }

  /** Area between height `y` and the skyline over columns `x0` to `end`. */
  function Area(sky: seq<Point>, x0: int, end: int, y: int): int
    requires sky != []
  {
    AreaTo(sky, |sky| - 1, x0, end, y)
  }

  lemma AreaStep(sky: seq<Point>, g: nat, x0: int, end: int, y: int)
    requires g < |sky| - 1
    ensures AreaTo(sky, g + 1, x0, end, y)
         == AreaTo(sky, g, x0, end, y) + Columns(sky, g, x0, end) * (y - sky[g].y)
  {
  }

  lemma Distribute(a: int, b: int, c: int)
    ensures a * (b + c) == a * b + a * c
    ensures (b + c) * a == b * a + c * a
  {
  }

  /** Points in order around segment `g`. */
  lemma Order(sky: seq<Point>, width: int, height: int, k: nat, g: nat)
    requires IsSky(sky, width, height) && k <= g < |sky| - 1
    ensures sky[k].x <= sky[g].x < sky[g + 1].x && 0 <= sky[g].y && (k < g ==> sky[k + 1].x <= sky[g].x)
  {
  }

  /** Segments that end before column `x0` contribute nothing. */
  lemma {:induction false} AreaBefore(sky: seq<Point>, width: int, height: int, g: nat, x0: int, end: int, y: int)
    requires IsSky(sky, width, height) && g < |sky| && sky[g].x <= x0
    ensures AreaTo(sky, g, x0, end, y) == 0
  {
    if g > 0 {
      Order(sky, width, height, g - 1, g - 1);
      assert Columns(sky, g - 1, x0, end) == 0;
      AreaBefore(sky, width, height, g - 1, x0, end, y);
    }
  }

  /** Nor do segments from column `end` on. */
  lemma {:induction false} AreaBeyond(sky: seq<Point>, width: int, height: int, g: nat, x0: int, end: int, y: int)
    requires IsSky(sky, width, height) && g < |sky| && end <= sky[g].x
    ensures Area(sky, x0, end, y) == AreaTo(sky, g, x0, end, y)
    decreases |sky| - g
  {
    if g < |sky| - 1 {
      Order(sky, width, height, g, g);
      AreaStep(sky, g, x0, end, y);
      assert Columns(sky, g, x0, end) == 0;
      AreaBeyond(sky, width, height, g + 1, x0, end, y);
    }
  }

  // ---------- What the search loop sums up ----------

  /** Only the segment at the right end of the target can lie on the ground. */
  ghost predicate GroundLast(sky: seq<Point>) {
    forall i | 0 <= i < |sky| - 2 :: sky[i].y > 0
  }

  /** Raising the height adds one full strip. */
  lemma {:induction false} AreaRaise(sky: seq<Point>, width: int, height: int, g: nat, x0: int, end: int, y: int,
                                     y': int)
    requires IsSky(sky, width, height) && g < |sky| && 0 <= x0 <= sky[g].x <= end
    ensures AreaTo(sky, g, x0, end, y') == AreaTo(sky, g, x0, end, y) + (sky[g].x - x0) * (y' - y)
  {
    if g > 0 {
      Order(sky, width, height, g - 1, g - 1);
      var c, d := Columns(sky, g - 1, x0, end), y' - y;
      Distribute(c, y - sky[g - 1].y, d);
      if sky[g - 1].x >= x0 {
        AreaRaise(sky, width, height, g - 1, x0, end, y, y');
        Distribute(d, sky[g - 1].x - x0, c);
      } else {
        AreaBefore(sky, width, height, g - 1, x0, end, y);
        AreaBefore(sky, width, height, g - 1, x0, end, y');
      }
    } else {
      assert sky[0].x - x0 == 0 && 0 * (y' - y) == 0;
    }
  }

  /** A segment above the level so far: all columns visited get one strip more, and it adds nothing itself. */
  lemma RaiseStep(sky: seq<Point>, width: int, height: int, k: nat, g: nat, x0: int, end: int, y: int)
    requires IsSky(sky, width, height) && k <= g < |sky| - 1 && sky[k].x <= x0 < sky[k + 1].x
    requires sky[g].x < end
    ensures var visited := Max(sky[g].x, x0) - x0;
            AreaTo(sky, g + 1, x0, end, sky[g].y) == AreaTo(sky, g, x0, end, y) + visited * (sky[g].y - y)
    ensures x0 < sky[g + 1].x
  {
    Order(sky, width, height, 0, k);
    Order(sky, width, height, k, g);
    AreaStep(sky, g, x0, end, sky[g].y);
    assert Columns(sky, g, x0, end) * 0 == 0;
    if g == k {
      AreaBefore(sky, width, height, k, x0, end, y);
      AreaBefore(sky, width, height, k, x0, end, sky[g].y);
      assert 0 * (sky[g].y - y) == 0;
    } else {
      AreaRaise(sky, width, height, g, x0, end, y, sky[g].y);
    }
  }

  /** Any other segment: the loop counts exactly its columns under the box, as only the last lies on the ground. */
  lemma LowerStep(sky: seq<Point>, width: int, height: int, k: nat, g: nat, x0: int, end: int, y: int)
    requires IsSky(sky, width, height) && GroundLast(sky) && k <= g < |sky| - 1 && sky[k].x <= x0 < sky[k + 1].x
    requires sky[g].x < end <= width && sky[g].y <= y && (g == k ==> y == 0)
    ensures var visited := Max(sky[g].x, x0) - x0;
            var under := Min(sky[g + 1].x - sky[g].x, end - x0 - visited);
            && AreaTo(sky, g + 1, x0, end, y) == AreaTo(sky, g, x0, end, y) + under * (y - sky[g].y)
            && (sky[g + 1].x < end ==> visited + under == sky[g + 1].x - x0)
    ensures x0 < sky[g + 1].x
  {
    Order(sky, width, height, k, g);
    AreaStep(sky, g, x0, end, y);
    if g == k { assert sky[g + 1].x == width; }
  }

  lemma WasteStarts(sky: seq<Point>, width: int, height: int, k: nat, x0: int, end: int)
    requires IsSky(sky, width, height) && k < |sky| && sky[k].x <= x0
    ensures AreaTo(sky, k, x0, end, 0) == 0
  {
    AreaBefore(sky, width, height, k, x0, end, 0);
  }

  /** A box on its level wastes no negative area. */
  lemma {:induction false} AreaIsNatural(sky: seq<Point>, x: int, w: int, y: int, g: nat)
    requires g < |sky| && 0 <= w && IsLevel(sky, x, w, y)
    ensures AreaTo(sky, g, x, x + w, y) >= 0
  {
    if g > 0 {
      AreaIsNatural(sky, x, w, y, g - 1);
      var c := Columns(sky, g - 1, x, x + w);
      if c > 0 {
        assert Meets(sky, g - 1, x, w);
        NotNegative(c, y - sky[g - 1].y);
      }
    }
  }

  lemma NotNegative(a: int, b: int)
    requires 0 <= a && 0 <= b
    ensures a * b >= 0
  {
  }

  // ---------- The best spot ----------

  /** A spot: the lower is better, then the one that wastes less, then the one further left. */
  datatype Spot = Spot(level: int, waste: int, x: int)

  predicate NoWorse(a: Spot, b: Spot) {
    a.level < b.level || (a.level == b.level && (a.waste < b.waste || (a.waste == b.waste && a.x <= b.x)))
  }

  /** The spot of a box put at column `x`, on level `y`. */
  function SpotAt(sky: seq<Point>, x: int, aligned: int, y: int): Spot
    requires sky != []
  {
    Spot(y, Area(sky, x, x + aligned, y), x)
  }

  /** If a box of height `h` fits at column `x`, then `best` exists and is no worse. */
  ghost predicate Covers(sky: seq<Point>, x: int, aligned: int, h: int, height: int, found: bool, best: Spot)
    requires sky != []
  {
    forall y | IsLevel(sky, x, aligned, y) && y + h <= height :: found && NoWorse(best, SpotAt(sky, x, aligned, y))
  }

  /** Of all columns where a box of height `h` fits, `x` is lowest, then least wasteful, then leftmost. */
  ghost predicate IsBestFit(sky: seq<Point>, aligned: int, h: int, width: int, height: int, x: int, y: int) {
    && sky != [] && 0 <= x <= width - aligned && IsLevel(sky, x, aligned, y) && y + h <= height
    && forall x' | 0 <= x' <= width - aligned ::
         Covers(sky, x', aligned, h, height, true, SpotAt(sky, x, aligned, y))
  }

  lemma CoversAt(sky: seq<Point>, x: int, aligned: int, h: int, height: int, found: bool, best: Spot, y: int)
    requires sky != [] && IsLevel(sky, x, aligned, y)
    requires y + h <= height ==> found && NoWorse(best, SpotAt(sky, x, aligned, y))
    ensures Covers(sky, x, aligned, h, height, found, best)
  {
    hide IsLevel, SpotAt, NoWorse;
    forall y' | IsLevel(sky, x, aligned, y')
      ensures y' == y
    {
      LevelUnique(sky, x, aligned, y, y');
    }
  }

  lemma CoversStays(sky: seq<Point>, x: int, aligned: int, h: int, height: int, found: bool, best: Spot, found': bool,
                    best': Spot)
    requires sky != [] && Covers(sky, x, aligned, h, height, found, best)
    requires found ==> found' && NoWorse(best', best)
    ensures Covers(sky, x, aligned, h, height, found', best')
  {
    hide IsLevel, SpotAt;
  }

  /** No segment start before `n` is better. */
  ghost predicate NoBetterStart(sky: seq<Point>, n: nat, aligned: int, h: int, height: int, found: bool, best: Spot)
    requires n <= |sky|
  {
    forall k: nat | k < n :: Covers(sky, sky[k].x, aligned, h, height, found, best)
  }

  /** No column that aligns the right edge with a point before `n` is better. */
  ghost predicate NoBetterRight(sky: seq<Point>, n: nat, aligned: int, h: int, height: int, found: bool, best: Spot)
    requires n <= |sky|
  {
    forall m: nat | m < n && aligned <= sky[m].x :: Covers(sky, sky[m].x - aligned, aligned, h, height, found, best)
  }

  lemma NoStarts(sky: seq<Point>, aligned: int, h: int, height: int, best: Spot)
    ensures NoBetterStart(sky, 0, aligned, h, height, false, best)
  {
  }

  lemma BetterStart(sky: seq<Point>, n: nat, aligned: int, h: int, height: int, found: bool, best: Spot, found': bool,
                    best': Spot)
    requires n < |sky| && NoBetterStart(sky, n, aligned, h, height, found, best)
    requires found ==> found' && NoWorse(best', best)
    requires Covers(sky, sky[n].x, aligned, h, height, found', best')
    ensures NoBetterStart(sky, n + 1, aligned, h, height, found', best')
  {
    hide Covers, NoWorse;
    forall k: nat | k < n
      ensures Covers(sky, sky[k].x, aligned, h, height, found', best')
    {
      CoversStays(sky, sky[k].x, aligned, h, height, found, best, found', best');
    }
  }

  lemma BetterRight(sky: seq<Point>, n: nat, aligned: int, h: int, height: int, best: Spot, best': Spot)
    requires n < |sky| && NoBetterRight(sky, n, aligned, h, height, true, best) && NoWorse(best', best)
    requires aligned <= sky[n].x ==> Covers(sky, sky[n].x - aligned, aligned, h, height, true, best')
    ensures NoBetterRight(sky, n + 1, aligned, h, height, true, best')
  {
    hide Covers, NoWorse;
    forall m: nat | m < n && aligned <= sky[m].x
      ensures Covers(sky, sky[m].x - aligned, aligned, h, height, true, best')
    {
      CoversStays(sky, sky[m].x - aligned, aligned, h, height, true, best, true, best');
    }
  }

  lemma SkipRight(sky: seq<Point>, n: nat, aligned: int, h: int, height: int, found: bool, best: Spot)
    requires n <= |sky| && forall m: nat | m < n :: sky[m].x < aligned
    ensures NoBetterRight(sky, n, aligned, h, height, found, best)
  {
  }

  lemma PointsInOrder(sky: seq<Point>, width: int, height: int, k: nat, n: nat)
    requires IsSky(sky, width, height) && k < |sky| && n < |sky| && sky[k].x < sky[n].x
    ensures k < n
  {
  }

  /** No segment start with room for the box to its right is better. */
  ghost predicate StartsCovered(sky: seq<Point>, aligned: int, h: int, width: int, height: int, best: Spot) {
    forall k: nat | k < |sky| && sky[k].x + aligned <= width :: Covers(sky, sky[k].x, aligned, h, height, true, best)
  }

  lemma StartsCover(sky: seq<Point>, n: nat, aligned: int, h: int, width: int, height: int, best: Spot)
    requires n < |sky| && IsSky(sky, width, height) && NoBetterStart(sky, n, aligned, h, height, true, best)
    requires width < sky[n].x + aligned
    ensures StartsCovered(sky, aligned, h, width, height, best)
  {
    hide Covers, IsSky;
    forall k: nat | k < |sky| && sky[k].x + aligned <= width
      ensures Covers(sky, sky[k].x, aligned, h, height, true, best)
    {
      PointsInOrder(sky, width, height, k, n);
    }
  }

  lemma StartsStay(sky: seq<Point>, aligned: int, h: int, width: int, height: int, best: Spot, best': Spot)
    requires StartsCovered(sky, aligned, h, width, height, best) && NoWorse(best', best)
    ensures StartsCovered(sky, aligned, h, width, height, best')
  {
    hide Covers, NoWorse;
    forall k: nat | k < |sky| && sky[k].x + aligned <= width
      ensures Covers(sky, sky[k].x, aligned, h, height, true, best')
    {
      CoversStays(sky, sky[k].x, aligned, h, height, true, best, true, best');
    }
  }

  // ---------- Columns between the edges ----------

  lemma {:induction false} AreaSplit(sky: seq<Point>, g: nat, u: int, v: int, w: int, y: int)
    requires g < |sky| && u <= v <= w
    requires forall i | 0 <= i < g :: sky[i].x <= sky[i + 1].x
    ensures AreaTo(sky, g, u, w, y) == AreaTo(sky, g, u, v, y) + AreaTo(sky, g, v, w, y)
  {
    if g > 0 {
      AreaSplit(sky, g - 1, u, v, w, y);
      ColumnsSplit(sky, g - 1, u, v, w);
      Distribute(y - sky[g - 1].y, Columns(sky, g - 1, u, v), Columns(sky, g - 1, v, w));
    }
  }

  lemma ColumnsSplit(sky: seq<Point>, i: nat, u: int, v: int, w: int)
    requires i + 1 < |sky| && u <= v <= w && sky[i].x <= sky[i + 1].x
    ensures Columns(sky, i, u, w) == Columns(sky, i, u, v) + Columns(sky, i, v, w)
  {
  }

  lemma SkySplit(sky: seq<Point>, width: int, height: int, u: int, v: int, w: int, y: int)
    requires IsSky(sky, width, height) && u <= v <= w
    ensures Area(sky, u, w, y) == Area(sky, u, v, y) + Area(sky, v, w, y)
  {
    AreaSplit(sky, |sky| - 1, u, v, w, y);
  }

  lemma AreaInside(sky: seq<Point>, width: int, height: int, k: nat, u: int, v: int, y: int)
    requires IsSky(sky, width, height) && k < |sky| - 1 && sky[k].x <= u <= v <= sky[k + 1].x
    ensures Area(sky, u, v, y) == (v - u) * (y - sky[k].y)
  {
    AreaBeyond(sky, width, height, k + 1, u, v, y);
    AreaBefore(sky, width, height, k, u, v, y);
    AreaStep(sky, k, u, v, y);
    assert Columns(sky, k, u, v) == v - u;
  }

  /** Segments `a` and `b` carry the left edge, and the last column, of the box at `x` and of the same box at `x'`. */
  predicate SameEdges(sky: seq<Point>, a: nat, b: nat, x: int, x': int, aligned: int) {
    && a < |sky| - 1 && b < |sky| - 1 && 0 < aligned
    && sky[a].x <= x <= sky[a + 1].x && sky[a].x <= x' <= sky[a + 1].x
    && sky[b].x <= x + aligned <= sky[b + 1].x && sky[b].x <= x' + aligned <= sky[b + 1].x
  }

  /** What sliding a box inside its first and last segment changes. */
  lemma Slide(sky: seq<Point>, width: int, height: int, a: nat, b: nat, x: int, x': int, aligned: int, y: int)
    requires IsSky(sky, width, height) && SameEdges(sky, a, b, x, x', aligned) && x <= x'
    ensures Area(sky, x', x' + aligned, y) - Area(sky, x, x + aligned, y) == (x' - x) * (sky[a].y - sky[b].y)
  {
    hide Area, IsSky;
    if a == b {
      AreaInside(sky, width, height, a, x, x + aligned, y);
      AreaInside(sky, width, height, a, x', x' + aligned, y);
      assert (x' - x) * (sky[a].y - sky[b].y) == 0;
    } else {
      EdgesApart(sky, width, height, a, b, x, x', aligned);
      SkySplit(sky, width, height, x, x', x + aligned, y);
      SkySplit(sky, width, height, x', x + aligned, x' + aligned, y);
      AreaInside(sky, width, height, a, x, x', y);
      AreaInside(sky, width, height, b, x + aligned, x' + aligned, y);
      Difference(x' - x, y, sky[a].y, sky[b].y);
    }
  }

  lemma Difference(d: int, y: int, p: int, q: int)
    ensures d * (y - q) - d * (y - p) == d * (p - q)
  {
  }

  lemma EdgesApart(sky: seq<Point>, width: int, height: int, a: nat, b: nat, x: int, x': int, aligned: int)
    requires IsSky(sky, width, height) && SameEdges(sky, a, b, x, x', aligned) && a != b
    ensures x' <= x + aligned && x <= x' + aligned
  {
    if a < b { SkyOrder(sky, width, height, a, b); } else { SkyOrder(sky, width, height, b, a); }
  }

  /** Sliding does not raise the box, as long as its first and last segment lie under it. */
  lemma SlideLevel(sky: seq<Point>, width: int, height: int, a: nat, b: nat, x: int, x': int, aligned: int, y: int,
                   y': int)
    requires IsSky(sky, width, height) && SameEdges(sky, a, b, x, x', aligned)
    requires x < sky[a + 1].x && sky[b].x < x + aligned
    requires IsLevel(sky, x, aligned, y) && IsLevel(sky, x', aligned, y')
    ensures y' <= y
  {
    var m :| Meets(sky, m, x', aligned) && sky[m].y == y';
    SkyOrder(sky, width, height, m, a);
    SkyOrder(sky, width, height, b, m);
    assert Meets(sky, m, x, aligned);
  }

  /** Sliding towards the higher of the two end segments, or to the left if they are level, only makes a spot better. */
  lemma SlideIsBetter(sky: seq<Point>, width: int, height: int, a: nat, b: nat, x: int, x': int, aligned: int, y: int,
                      y': int)
    requires IsSky(sky, width, height) && SameEdges(sky, a, b, x, x', aligned)
    requires x < sky[a + 1].x && sky[b].x < x + aligned
    requires if sky[b].y <= sky[a].y then x' <= x else x <= x'
    requires IsLevel(sky, x, aligned, y) && IsLevel(sky, x', aligned, y')
    ensures NoWorse(SpotAt(sky, x', aligned, y'), SpotAt(sky, x, aligned, y))
    ensures x != x' ==> !NoWorse(SpotAt(sky, x, aligned, y), SpotAt(sky, x', aligned, y'))
  {
    hide Area, IsLevel, IsSky;
    SlideLevel(sky, width, height, a, b, x, x', aligned, y, y');
    if sky[b].y <= sky[a].y {
      Slide(sky, width, height, a, b, x', x, aligned, y);
      NotNegative(x - x', sky[a].y - sky[b].y);
    } else {
      Slide(sky, width, height, a, b, x, x', aligned, y);
      if x < x' { Less(x' - x, sky[a].y - sky[b].y); }
    }
  }

  lemma Less(a: int, b: int)
    requires 0 < a && b < 0
    ensures a * b < 0
  {
  }

  /** What no aligned spot offers, no column offers: a box slides to the nearest point for one of its edges. */
  lemma EdgesDecide(sky: seq<Point>, width: int, height: int, aligned: int, h: int, best: Spot, x: int)
    requires IsSky(sky, width, height) && 0 < aligned && 0 <= x <= width - aligned
    requires StartsCovered(sky, aligned, h, width, height, best)
    requires NoBetterRight(sky, |sky|, aligned, h, height, true, best)
    ensures Covers(sky, x, aligned, h, height, true, best)
  {
    hide IsLevel, Area, NoWorse;
    var a := SegmentAt(sky, width, height, x, |sky| - 1);
    var b := SegmentAt(sky, width, height, x + aligned - 1, |sky| - 1);
    var x' := if sky[b].y <= sky[a].y then x - Min(x - sky[a].x, x + aligned - sky[b].x)
              else x + Min(sky[a + 1].x - x, sky[b + 1].x - (x + aligned));
    assert sky[a].x >= 0;
    assert Covers(sky, x', aligned, h, height, true, best);
    forall y | IsLevel(sky, x, aligned, y) && y + h <= height
      ensures NoWorse(best, SpotAt(sky, x, aligned, y))
    {
      var y' := LevelOf(sky, width, height, x', aligned);
      SlideLevel(sky, width, height, a, b, x, x', aligned, y, y');
      SlideIsBetter(sky, width, height, a, b, x, x', aligned, y, y');
      NoWorseTrans(best, SpotAt(sky, x', aligned, y'), SpotAt(sky, x, aligned, y));
    }
  }

  /** The best of the aligned spots is the best of all columns. */
  lemma AlignedIsBest(sky: seq<Point>, width: int, height: int, aligned: int, h: int, x: int, y: int)
    requires IsSky(sky, width, height) && 0 < aligned && 0 <= x <= width - aligned
    requires IsLevel(sky, x, aligned, y) && y + h <= height
    requires StartsCovered(sky, aligned, h, width, height, SpotAt(sky, x, aligned, y))
    requires NoBetterRight(sky, |sky|, aligned, h, height, true, SpotAt(sky, x, aligned, y))
    ensures IsBestFit(sky, aligned, h, width, height, x, y)
  {
    hide IsSky, IsLevel, Covers, StartsCovered, NoBetterRight, SpotAt;
    assert sky != [] by { PointsExist(sky, width, height); }
    forall x' | 0 <= x' <= width - aligned
      ensures Covers(sky, x', aligned, h, height, true, SpotAt(sky, x, aligned, y))
    {
      EdgesDecide(sky, width, height, aligned, h, SpotAt(sky, x, aligned, y), x');
    }
  }

  lemma PointsExist(sky: seq<Point>, width: int, height: int)
    requires IsSky(sky, width, height)
    ensures |sky| >= 2
  {
  }

  /** The best fit is one of the lowest, and there is room if there is any. */
  lemma BestFitIsLowest(sky: seq<Point>, aligned: int, h: int, width: int, height: int, x: int, y: int)
    requires IsBestFit(sky, aligned, h, width, height, x, y)
    ensures IsLowestFit(sky, aligned, h, width, height, y) && !NothingFits(sky, aligned, h, width, height)
    ensures y + h <= height
  {
    hide IsLevel, Area;
    forall x', y' | 0 <= x' <= width - aligned && IsLevel(sky, x', aligned, y') && y' + h <= height
      ensures y <= y'
    {
      assert Covers(sky, x', aligned, h, height, true, SpotAt(sky, x, aligned, y));
    }
  }

  lemma NoWorseTrans(a: Spot, b: Spot, c: Spot)
    requires NoWorse(a, b) && NoWorse(b, c)
    ensures NoWorse(a, c)
  {
  }

  // ---------- The ground stays at the right end ----------

  /** Inside the last segment everything is as on its start. */
  lemma LastSegment(sky: seq<Point>, width: int, height: int, i: nat, x: int, aligned: int)
    requires IsSky(sky, width, height) && i == |sky| - 2 && sky[i].x <= x && 0 < aligned && x + aligned <= width
    ensures IsLevel(sky, x, aligned, sky[i].y) && Area(sky, x, x + aligned, sky[i].y) == 0
  {
    AreaInside(sky, width, height, i, x, x + aligned, sky[i].y);
    assert aligned * (sky[i].y - sky[i].y) == 0;
    assert Meets(sky, i, x, aligned);
    forall m | Meets(sky, m, x, aligned)
      ensures m == i
    {
      if m < i { SkyOrder(sky, width, height, m, i); }
    }
  }

  lemma GroundIsLast(sky: seq<Point>, width: int, height: int, i: nat)
    requires IsSky(sky, width, height) && GroundLast(sky) && i < |sky| - 1 && sky[i].y <= 0
    ensures i == |sky| - 2 && sky[i].x >= 0
  {
  }

  /**
   * The best fit never starts inside the ground: the ground's own start is as low, wastes as little and is left of
   * it.
   */
  lemma BestFitNotInside(sky: seq<Point>, width: int, height: int, i: nat, aligned: int, h: int, x: int, y: int)
    requires IsSky(sky, width, height) && GroundLast(sky) && 0 < aligned && i < |sky| - 1
    requires IsBestFit(sky, aligned, h, width, height, x, y) && sky[i].x <= x < sky[i + 1].x
    ensures x == sky[i].x || sky[i].y > 0
  {
    hide IsSky, GroundLast, IsLevel, Area, NoWorse;
    if sky[i].y <= 0 {
      GroundIsLast(sky, width, height, i);
      LastSegment(sky, width, height, i, x, aligned);
      LastSegment(sky, width, height, i, sky[i].x, aligned);
      LevelUnique(sky, x, aligned, sky[i].y, y);
      assert Covers(sky, sky[i].x, aligned, h, height, true, SpotAt(sky, x, aligned, y));
      NoWorseTies(SpotAt(sky, x, aligned, y), SpotAt(sky, sky[i].x, aligned, y));
    }
  }

  lemma NoWorseTies(a: Spot, b: Spot)
    ensures NoWorse(a, b) && a.level == b.level && a.waste == b.waste ==> a.x <= b.x
  {
  }

  /** A box whose spot does not start inside the ground leaves the ground at the right end. */
  lemma PlaceKeepsGround(sky: seq<Point>, i: nat, x: int, w: int, aligned: int, top: int, width: int, height: int)
    requires IsSky(sky, width, height) && GroundLast(sky) && IsSpot(sky, i, x, w, aligned, width) && 0 < top
    requires x == sky[i].x || sky[i].y > 0
    ensures GroundLast(Place(sky, i, x, w, top))
  {
    hide Cut, IsSky;
    var lo := Kept(sky, i, x);
    var c := Cut(sky, lo, x + w);
    var sky' := Place(sky, i, x, w, top);
    forall k | 0 <= k < |sky'| - 2
      ensures sky'[k].y > 0
    {
      assert sky'[k] == if k < lo then sky[k] else if k == lo then Point(x, top)
                        else if k == lo + 1 then Point(Max(sky[c].x, x + w), sky[c].y) else sky[k + c - lo - 1];
    }
  }
}
