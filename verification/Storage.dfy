/**
 * Whether the caller's nodes can run out. Widths are rounded up so that they should not, but the packer rounds only
 * while searching and records the box's own width, so new points need not fall on multiples of the alignment.
 */
module Storage {
  import opened Words
  import opened Skyline
  import opened SkylineWaste
  import opened RectPack
  import opened RectList

  /** A target and how it is set up: widths rounded or not, bottom-left or best fit. */
  datatype Target = Target(width: int, height: int, nodes: int, quantised: bool, bestFit: bool)

  predicate IsTarget(t: Target) {
    0 < t.width <= SENTINEL_Y && 0 < t.height < SENTINEL_Y && 0 < t.nodes
  }

  /** What `InitTarget` leaves: a flat skyline and all nodes free. */
  function Start(t: Target): Shelf
    requires IsTarget(t)
  {
    Shelf([Point(0, 0), Point(t.width, SENTINEL_Y)], t.nodes)
  }

  function Align(t: Target): int
    requires IsTarget(t)
  {
    if t.quantised then AlignFor(t.width, t.nodes) else 1
  }

  function SettingOf(t: Target): Setting
    requires IsTarget(t)
  {
    Setting(t.width, t.height, Align(t), t.bestFit)
  }

  /** After k boxes were placed; with `grid`, all their widths are multiples of the alignment. */
  ghost predicate Reachable(t: Target, grid: bool, k: nat, s: Shelf)
    requires IsTarget(t)
  {
    if k == 0 then s == Start(t)
    else exists s0, b :: Reachable(t, grid, k - 1, s0) && Packs(t, grid, s0, s, b)
  }

  ghost predicate Packs(t: Target, grid: bool, s: Shelf, s': Shelf, b: Box)
    requires IsTarget(t)
  {
    Places(SettingOf(t), s, s', b) && (grid ==> b.w % Align(t) == 0)
  }

  /** The spot at which a box was placed. */
  lemma SpotOf(t: Target, grid: bool, s: Shelf, s': Shelf, b: Box) returns (i: int)
    requires IsTarget(t) && Packs(t, grid, s, s', b)
    ensures 0 < b.w && 0 < b.h && b.y + b.h <= t.height && s'.free == s.free + |s.sky| - |s'.sky|
    ensures var aligned := RoundUp(b.w, Align(t));
            && (if t.bestFit then IsBestFit(s.sky, aligned, b.h, t.width, t.height, b.x, b.y)
                else IsBottomLeft(s.sky, aligned, t.width, b.x, b.y))
            && IsLevel(s.sky, b.x, aligned, b.y)
            && IsSpot(s.sky, i, b.x, b.w, aligned, t.width) && s'.sky == Place(s.sky, i, b.x, b.w, b.y + b.h)
  {
    hide IsLevel, IsBottomLeft, IsBestFit, Place, RoundUp, AlignFor;
    i :| IsSpot(s.sky, i, b.x, b.w, RoundUp(b.w, Align(t)), t.width) && s'.sky == Place(s.sky, i, b.x, b.w, b.y + b.h);
  }

  lemma PackKeeps(t: Target, grid: bool, s: Shelf, s': Shelf, b: Box)
    requires IsTarget(t) && IsSky(s.sky, t.width, t.height) && Packs(t, grid, s, s', b)
    ensures IsSky(s'.sky, t.width, t.height) && s'.free + |s'.sky| == s.free + |s.sky|
  {
    hide IsSky, IsLevel, IsBottomLeft, IsBestFit, Place, RoundUp, AlignFor, Packs;
    var i := SpotOf(t, grid, s, s', b);
    var aligned := RoundUp(b.w, Align(t));
    LevelInRange(s.sky, t.width, t.height, b.x, aligned, b.y);
    PlaceIsSky(s.sky, i, b.x, b.w, aligned, b.y + b.h, t.width, t.height);
  }

  lemma {:induction false} ReachableInvariant(t: Target, grid: bool, k: nat, s: Shelf)
    requires IsTarget(t) && Reachable(t, grid, k, s)
    ensures IsSky(s.sky, t.width, t.height) && s.free + |s.sky| == t.nodes + 2
  {
    hide Packs, IsSky;
    if k == 0 {
      FreshSky(t.width, t.height);
    } else {
      var s0, b :| Reachable(t, grid, k - 1, s0) && Packs(t, grid, s0, s, b);
      ReachableInvariant(t, grid, k - 1, s0);
      PackKeeps(t, grid, s0, s, b);
    }
  }

  // ---------- The packer object ----------

  /** Whatever lists of rectangles the packer is given, its shelf stays reachable. */
  lemma {:induction false} TurnsReachable(t: Target, k: nat, shelves: seq<Shelf>, order: seq<Rect>) returns (m: nat)
    requires IsTarget(t) && Turns(SettingOf(t), shelves, order) && Reachable(t, false, k, shelves[0])
    ensures Reachable(t, false, m, shelves[|order|])
  {
    hide Reachable, CanPlace, Places, Empty, Rejected;
    m := k;
    if order != [] {
      var n := |order| - 1;
      m := TurnsReachable(t, k, shelves[..n + 1], order[..n]);
      assert Turn(SettingOf(t), shelves[n], order[n], shelves[n + 1]);
      if !Empty(order[n]) && !Rejected(order[n]) {
        PlacedReachable(t, m, shelves[n], shelves[n + 1], BoxOf(order[n]));
        m := m + 1;
      }
    }
  }

  lemma PlacedReachable(t: Target, k: nat, s: Shelf, s': Shelf, b: Box)
    requires IsTarget(t) && Reachable(t, false, k, s) && Places(SettingOf(t), s, s', b)
    ensures Reachable(t, false, k + 1, s')
  {
    hide Places;
    assert Packs(t, false, s, s', b);
  }

  /** A skyline has at most one point per column, and the right edge. */
  lemma {:induction false} PointsFitColumns(sky: seq<Point>, width: int, height: int, n: nat)
    requires IsSky(sky, width, height) && n < |sky|
    ensures n <= sky[n].x
  {
    if n > 0 { PointsFitColumns(sky, width, height, n - 1); }
  }

  // ---------- Running out ----------

  /** After k unit boxes: a step of height 1 over the first k columns. */
  function Staircase(t: Target, k: nat): (s: Shelf)
    requires k <= t.nodes
  {
    Shelf(seq(k, j => Point(j, 1)) + [Point(k, 0), Point(t.width, SENTINEL_Y)], t.nodes - k)
  }

  lemma AlignmentLeavesRoom(t: Target)
    requires IsTarget(t) && t.nodes < t.width
    ensures t.nodes - 1 + Align(t) <= t.width
  {
    var width, n, a := t.width, t.nodes, Align(t);
    if t.quantised {
      assert n * a <= width + n - 1;
      if a >= width - n + 2 {
        MulAtLeast(n, a, width - n + 2);
        assert n * (width - n + 2) == width + n + (n - 1) * (width - n);
        MulAtLeast(n - 1, width - n, 0);
      }
    }
  }

  lemma MulAtLeast(n: int, a: int, b: int)
    requires n >= 0 && a >= b
    ensures n * a >= n * b
  {
    assert n * a - n * b == n * (a - b);
  }

  lemma RoundUpOne(a: int)
    requires 0 < a
    ensures RoundUp(1, a) == a
  {
    ModUnique(a, a, 1, 0);
  }

  lemma RoundUpMultiple(w: int, a: int)
    requires 0 < w && 0 < a && w % a == 0
    ensures RoundUp(w, a) == w
  {
    ModUnique(w + a - 1, a, w / a, a - 1);
  }

  lemma StaircaseIsSky(t: Target, k: nat)
    requires IsTarget(t) && t.nodes < t.width && k <= t.nodes
    ensures IsSky(Staircase(t, k).sky, t.width, t.height)
  {
  }

  /** At step `k` column `k` is the leftmost of the lowest, and wastes nothing. */
  lemma StaircaseSpot(t: Target, k: nat, aligned: int)
    requires IsTarget(t) && t.nodes < t.width && k < t.nodes && 0 < aligned && k + aligned <= t.width
    ensures var sky := Staircase(t, k).sky;
            && IsLevel(sky, k, aligned, 0) && IsBottomLeft(sky, aligned, t.width, k, 0)
            && IsBestFit(sky, aligned, 1, t.width, t.height, k, 0)
  {
    hide Area;
    var sky := Staircase(t, k).sky;
    StaircaseIsSky(t, k);
    LastSegment(sky, t.width, t.height, k, k, aligned);
    forall x', y' | 0 <= x' <= t.width - aligned && IsLevel(sky, x', aligned, y')
      ensures NoWorse(SpotAt(sky, k, aligned, 0), SpotAt(sky, x', aligned, y'))
      ensures 0 < y' || (0 == y' && k <= x')
    {
      if x' < k {
        assert Meets(sky, x', x', aligned);
      } else {
        LastSegment(sky, t.width, t.height, k, x', aligned);
        LevelUnique(sky, x', aligned, 0, y');
      }
    }
  }

  lemma StaircaseStep(t: Target, grid: bool, k: nat)
    requires IsTarget(t) && t.nodes < t.width && k < t.nodes && (grid ==> !t.quantised)
    ensures Packs(t, grid, Staircase(t, k), Staircase(t, k + 1), Box(k, 0, 1, 1))
  {
    hide AlignFor, RoundUp, IsLevel, IsBottomLeft, IsBestFit, Place, IsSpot;
    RoundUpOne(Align(t));
    AlignmentLeavesRoom(t);
    StaircaseSpot(t, k, Align(t));
    StaircasePlace(t, k, Align(t));
  }

  lemma StaircasePlace(t: Target, k: nat, aligned: int)
    requires IsTarget(t) && t.nodes < t.width && k < t.nodes && 0 < aligned && k + aligned <= t.width
    ensures var sky := Staircase(t, k).sky;
            && IsSpot(sky, k, k, 1, aligned, t.width) && Place(sky, k, k, 1, 1) == Staircase(t, k + 1).sky
            && |Staircase(t, k + 1).sky| == |sky| + 1
  {
    var sky := Staircase(t, k).sky;
    assert Cut(sky, k, k + 1) == k;
  }

  lemma StaircaseStarts(t: Target)
    requires IsTarget(t)
    ensures Staircase(t, 0) == Start(t)
  {
  }

  lemma {:induction false} StaircaseReachable(t: Target, grid: bool, k: nat)
    requires IsTarget(t) && t.nodes < t.width && k <= t.nodes && (grid ==> !t.quantised)
    ensures Reachable(t, grid, k, Staircase(t, k))
  {
    hide Packs, Staircase;
    StaircaseStarts(t);
    if k > 0 {
      StaircaseReachable(t, grid, k - 1);
      StaircaseStep(t, grid, k - 1);
    }
  }

  /** A run that uses up all nodes. */
  lemma NodesRunOut(t: Target, grid: bool)
    requires IsTarget(t) && t.nodes < t.width && (grid ==> !t.quantised)
    ensures exists k: nat, s :: Reachable(t, grid, k, s) && s.free == 0
  {
    hide Reachable;
    var k: nat := t.nodes;
    StaircaseReachable(t, grid, k);
    assert Reachable(t, grid, k, Staircase(t, k)) && Staircase(t, k).free == 0;
  }

  lemma ColumnsSuffice(t: Target, grid: bool, k: nat, s: Shelf)
    requires IsTarget(t) && t.nodes >= t.width && Reachable(t, grid, k, s)
    ensures s.free > 0
  {
    hide Reachable;
    ReachableInvariant(t, grid, k, s);
    PointsFitColumns(s.sky, t.width, t.height, |s.sky| - 1);
  }

  /** Whatever the heuristic, some node is always free if and only if there are at least as many nodes as columns. */
  lemma NodesLastIff(t: Target)
    requires IsTarget(t)
    ensures (forall k: nat, s :: Reachable(t, false, k, s) ==> s.free > 0) <==> t.nodes >= t.width
  {
    hide Reachable;
    if t.nodes >= t.width {
      forall k: nat, s | Reachable(t, false, k, s)
        ensures s.free > 0
      {
        ColumnsSuffice(t, false, k, s);
      }
    } else {
      NodesRunOut(t, false);
    }
  }

  // ---------- Widths on the grid ----------

  ghost predicate OnGrid(sky: seq<Point>, a: int)
    requires a > 0
  {
    forall i :: 0 <= i < |sky| - 1 ==> sky[i].x % a == 0
  }

  lemma SumOnGrid(x: int, w: int, a: int)
    requires a > 0 && x % a == 0 && w % a == 0
    ensures (x + w) % a == 0
  {
    ModUnique(x + w, a, x / a + w / a, 0);
  }

  lemma PlaceOnGrid(sky: seq<Point>, width: int, height: int, i: nat, x: int, w: int, top: int, a: int)
    requires IsSky(sky, width, height) && a > 0 && OnGrid(sky, a) && x % a == 0 && w % a == 0
    requires i < |sky| - 1 && x + w <= width
    ensures OnGrid(Place(sky, i, x, w, top), a)
  {
    SumOnGrid(x, w, a);
    var lo := Kept(sky, i, x);
    var c := Cut(sky, lo, x + w);
    hide Cut, Kept;
    var sky' := Place(sky, i, x, w, top);
    forall k | 0 <= k < |sky'| - 1
      ensures sky'[k].x % a == 0
    {
      assert sky'[k] == if k < lo then sky[k] else if k == lo then Point(x, top)
                        else if k == lo + 1 then Point(Max(sky[c].x, x + w), sky[c].y) else sky[k + c - lo - 1];
    }
  }

  lemma {:induction false} GridSpacing(sky: seq<Point>, width: int, height: int, a: int, n: nat)
    requires IsSky(sky, width, height) && a > 0 && OnGrid(sky, a) && n < |sky| - 1
    ensures n * a <= sky[n].x
  {
    if n > 0 {
      GridSpacing(sky, width, height, a, n - 1);
      NextOnGrid(sky[n - 1].x, sky[n].x, a);
      assert n * a == (n - 1) * a + a;
    }
  }

  lemma NextOnGrid(x: int, y: int, a: int)
    requires a > 0 && x % a == 0 && y % a == 0 && x < y
    ensures x + a <= y
  {
    var p, q := x / a, y / a;
    assert x == a * p && y == a * q;
    if q <= p { MulAtLeast(a, p, q); } else { MulAtLeast(a, q, p + 1); }
  }

  // ---------- Best fit on the grid ----------

  lemma Multiple(x: int, a: int)
    requires a > 0
    ensures (x - x % a) % a == 0 && (x % a != 0 ==> (x - x % a + a) % a == 0)
  {
    ModUnique(x - x % a, a, x / a, 0);
    ModUnique(x - x % a + a, a, x / a + 1, 0);
  }

  /** Multiples around a number that is none. */
  lemma Between(lo: int, x: int, hi: int, a: int)
    requires a > 0 && lo % a == 0 && lo <= x && x % a != 0
    ensures lo <= x - x % a
    ensures hi % a == 0 && x <= hi ==> x - x % a + a <= hi
  {
    Multiple(x, a);
    if lo > x - x % a { NextOnGrid(x - x % a, lo, a); }
    if hi % a == 0 && x <= hi { NextOnGrid(x - x % a, hi, a); }
  }

  lemma SameRemainder(x: int, aligned: int, a: int)
    requires a > 0 && aligned % a == 0
    ensures (x + aligned) % a == x % a
  {
    ModUnique(x + aligned, a, x / a + aligned / a, x % a);
  }

  /** The columns a box would slide to if its place were off the grid. */
  lemma GridPlaces(sky: seq<Point>, width: int, height: int, p: nat, q: nat, aligned: int, x: int, a: int)
    requires IsSky(sky, width, height) && a > 0 && OnGrid(sky, a) && 0 < aligned && aligned % a == 0 && x % a != 0
    requires width % a == 0 || sky[|sky| - 2].y == 0
    requires p < |sky| - 1 && sky[p].x <= x < sky[p + 1].x && x + aligned <= width
    requires q < |sky| - 1 && sky[q].x <= x + aligned - 1 < sky[q + 1].x
    ensures SameEdges(sky, p, q, x, x - x % a, aligned) && 0 <= x - x % a
    ensures sky[q].y > sky[p].y ==> SameEdges(sky, p, q, x, x - x % a + a, aligned)
  {
    SameRemainder(x, aligned, a);
    assert (x + aligned) % a != 0 && sky[p].x % a == 0 && sky[q].x % a == 0;
    Between(sky[p].x, x, sky[p + 1].x, a);
    Between(sky[q].x, x + aligned, sky[q + 1].x, a);
    if sky[q].y > sky[p].y {
      SegmentsInOrder(sky, width, height, p, q, x, aligned);
      assert q < |sky| - 2 ==> sky[q + 1].x % a == 0;
    }
  }

  lemma SegmentsInOrder(sky: seq<Point>, width: int, height: int, p: nat, q: nat, x: int, aligned: int)
    requires IsSky(sky, width, height) && 0 < aligned
    requires p < |sky| - 1 && sky[p].x <= x < sky[p + 1].x
    requires q < |sky| - 1 && sky[q].x <= x + aligned - 1 < sky[q + 1].x
    ensures p <= q && 0 <= sky[p].y && sky[|sky| - 1].x == width
  {
  }

  /** A spot off the grid is beaten by one on the grid: it wastes less, or as little further left. */
  lemma OffGridIsBeaten(sky: seq<Point>, width: int, height: int, aligned: int, x: int, y: int, a: int)
    returns (x': int, y': int)
    requires IsSky(sky, width, height) && a > 0 && OnGrid(sky, a) && 0 < aligned && aligned % a == 0
    requires width % a == 0 || sky[|sky| - 2].y == 0
    requires 0 <= x <= width - aligned && IsLevel(sky, x, aligned, y) && x % a != 0
    ensures 0 <= x' <= width - aligned && IsLevel(sky, x', aligned, y') && y' <= y
    ensures !NoWorse(SpotAt(sky, x, aligned, y), SpotAt(sky, x', aligned, y'))
  {
    hide OnGrid, IsLevel, Area, NoWorse;
    var p := SegmentAt(sky, width, height, x, |sky| - 1);
    var q := SegmentAt(sky, width, height, x + aligned - 1, |sky| - 1);
    GridPlaces(sky, width, height, p, q, aligned, x, a);
    x' := if sky[q].y <= sky[p].y then x - x % a else x - x % a + a;
    RightEdge(sky, width, height, q);
    y' := LevelOf(sky, width, height, x', aligned);
    SlideLevel(sky, width, height, p, q, x, x', aligned, y, y');
    SlideIsBetter(sky, width, height, p, q, x, x', aligned, y, y');
  }

  /** So an off-grid right edge never wins. */
  lemma OffGridIsNotBest(sky: seq<Point>, width: int, height: int, aligned: int, h: int, x: int, y: int, a: int)
    requires IsSky(sky, width, height) && a > 0 && OnGrid(sky, a) && 0 < aligned && aligned % a == 0
    requires width % a == 0 || sky[|sky| - 2].y == 0
    requires x % a != 0
    ensures !IsBestFit(sky, aligned, h, width, height, x, y)
  {
    hide IsSky, OnGrid, IsLevel, SpotAt, NoWorse;
    if 0 <= x <= width - aligned && IsLevel(sky, x, aligned, y) {
      var x', y' := OffGridIsBeaten(sky, width, height, aligned, x, y, a);
      assert IsBestFit(sky, aligned, h, width, height, x, y) ==>
               Covers(sky, x', aligned, h, height, true, SpotAt(sky, x, aligned, y));
    }
  }

  lemma RightEdge(sky: seq<Point>, width: int, height: int, q: nat)
    requires IsSky(sky, width, height) && q < |sky| - 1
    ensures sky[q + 1].x <= width
  {
  }

  /** Points on the grid; a right edge that is off the grid still has ground to its left. */
  ghost predicate Gridded(sky: seq<Point>, width: int, a: int)
    requires a > 0
  {
    |sky| >= 2 && OnGrid(sky, a) && (width % a == 0 || sky[|sky| - 2].y == 0)
  }

  lemma PlaceKeepsGrid(sky: seq<Point>, width: int, height: int, i: nat, x: int, w: int, top: int, a: int)
    requires IsSky(sky, width, height) && a > 0 && Gridded(sky, width, a) && x % a == 0 && w % a == 0
    requires IsSpot(sky, i, x, w, w, width)
    ensures Gridded(Place(sky, i, x, w, top), width, a)
  {
    PlaceOnGrid(sky, width, height, i, x, w, top, a);
    SumOnGrid(x, w, a);
    if width % a != 0 { PlaceKeepsLast(sky, width, height, i, x, w, top); }
  }

  lemma PlaceKeepsLast(sky: seq<Point>, width: int, height: int, i: nat, x: int, w: int, top: int)
    requires IsSky(sky, width, height) && IsSpot(sky, i, x, w, w, width) && x + w < width
    ensures var sky' := Place(sky, i, x, w, top);
            |sky'| >= 2 && sky'[|sky'| - 2].y == sky[|sky| - 2].y
  {
    hide Cut;
    var lo := Kept(sky, i, x);
    var c := Cut(sky, lo, x + w);
    assert c < |sky| - 1;
  }

  lemma PackOnGrid(t: Target, s: Shelf, s': Shelf, b: Box)
    requires IsTarget(t) && IsSky(s.sky, t.width, t.height) && Gridded(s.sky, t.width, Align(t))
    requires Packs(t, true, s, s', b)
    ensures Gridded(s'.sky, t.width, Align(t))
  {
    hide IsSky, IsLevel, IsBottomLeft, IsBestFit, Place, AlignFor, RoundUp, OnGrid;
    var i := SpotOf(t, true, s, s', b);
    var aligned := RoundUp(b.w, Align(t));
    RoundUpMultiple(b.w, Align(t));
    if t.bestFit {
      if b.x % Align(t) != 0 { OffGridIsNotBest(s.sky, t.width, t.height, aligned, b.h, b.x, b.y, Align(t)); }
    } else {
      BottomLeftAtPoint(s.sky, t.width, t.height, i, aligned, b.x, b.y);
      assert b.x % Align(t) == 0 by { PointOnGrid(s.sky, Align(t), i); }
    }
    PlaceKeepsGrid(s.sky, t.width, t.height, i, b.x, b.w, b.y + b.h, Align(t));
  }

  lemma PointOnGrid(sky: seq<Point>, a: int, i: nat)
    requires a > 0 && OnGrid(sky, a) && i < |sky| - 1
    ensures sky[i].x % a == 0
  {
  }

  lemma {:induction false} ReachableOnGrid(t: Target, k: nat, s: Shelf)
    requires IsTarget(t) && Reachable(t, true, k, s)
    ensures Gridded(s.sky, t.width, Align(t))
  {
    hide Packs, IsSky, AlignFor;
    if k > 0 {
      var s0, b :| Reachable(t, true, k - 1, s0) && Packs(t, true, s0, s, b);
      ReachableOnGrid(t, k - 1, s0);
      ReachableInvariant(t, true, k - 1, s0);
      PackOnGrid(t, s0, s, b);
    } else {
      ModUnique(0, Align(t), 0, 0);
    }
  }

  lemma GridNodesLast(t: Target, k: nat, s: Shelf)
    requires IsTarget(t) && t.quantised && Reachable(t, true, k, s)
    ensures s.free > 0
  {
    hide Reachable, AlignFor;
    ReachableOnGrid(t, k, s);
    ReachableInvariant(t, true, k, s);
    var a, m := Align(t), |s.sky| - 2;
    GridSpacing(s.sky, t.width, t.height, a, m);
    assert s.sky[m].x < t.width;
    AlignCovers(t);
    if m >= t.nodes { MulAtLeast(a, m, t.nodes); }
  }

  lemma AlignCovers(t: Target)
    requires IsTarget(t) && t.quantised
    ensures t.width <= t.nodes * Align(t)
  {
  }

  /**
   * If every width is a multiple of the alignment, a node is always free exactly if widths are rounded or nodes
   * abound.
   */
  lemma GridNodesLastIff(t: Target)
    requires IsTarget(t)
    ensures (forall k: nat, s :: Reachable(t, true, k, s) ==> s.free > 0) <==> t.quantised || t.nodes >= t.width
  {
    hide Reachable;
    if t.quantised || t.nodes >= t.width {
      forall k: nat, s | Reachable(t, true, k, s)
        ensures s.free > 0
      {
        if t.quantised { GridNodesLast(t, k, s); } else { ColumnsSuffice(t, true, k, s); }
      }
    } else {
      NodesRunOut(t, true);
    }
  }

  /** With enough nodes, or with widths on the grid, only geometry decides whether a box is placed. */
  lemma OnlyGeometryDecides(t: Target, grid: bool, k: nat, s: Shelf, w: int, h: int)
    requires IsTarget(t) && Reachable(t, grid, k, s) && ((grid && t.quantised) || t.nodes >= t.width) && 0 < w
    ensures var aligned := RoundUp(w, Align(t));
            CanPlace(SettingOf(t), s, w, h)
            <==> aligned <= t.width && h <= t.height && !NothingFits(s.sky, aligned, h, t.width, t.height)
  {
    hide Reachable, RoundUp, AlignFor, NothingFits;
    if t.nodes >= t.width { ColumnsSuffice(t, grid, k, s); } else { GridNodesLast(t, k, s); }
  }
}
