/** The skyline of a packing target as a sequence of points, and what placing a rectangle does to it. */
module Skyline {

  const SENTINEL_Y := 0x4000_0000

  /** From its x to the x of the next point the skyline is y high; the last point is the right edge of the target. */
  datatype Point = Point(x: int, y: int)

  datatype Box = Box(x: int, y: int, w: int, h: int)

  ghost predicate IsSky(sky: seq<Point>, width: int, height: int) {
    && |sky| >= 2
    && sky[0].x == 0
    && sky[|sky| - 1] == Point(width, SENTINEL_Y)
    && (forall i, j | 0 <= i < j < |sky| :: sky[i].x < sky[j].x)
    && (forall i | 0 <= i < |sky| - 1 :: 0 <= sky[i].y <= height)
  }

  /** Segment `i` of the skyline meets the `w` columns from x on. */
  ghost predicate Meets(sky: seq<Point>, i: int, x: int, w: int) {
    0 <= i < |sky| - 1 && sky[i].x < x + w && x < sky[i + 1].x
  }

  /** `y` is the highest skyline over the `w` columns from x on. */
  ghost predicate IsLevel(sky: seq<Point>, x: int, w: int, y: int) {
    && (forall i | Meets(sky, i, x, w) :: sky[i].y <= y)
    && (exists i :: Meets(sky, i, x, w) && sky[i].y == y)
  }

  /** No part of the box sticks out over the skyline. */
  ghost predicate Below(sky: seq<Point>, b: Box) {
    forall i | Meets(sky, i, b.x, b.w) :: b.y + b.h <= sky[i].y
  }

  ghost predicate Inside(b: Box, width: int, height: int) {
    0 <= b.x && b.x + b.w <= width && 0 <= b.y && b.y + b.h <= height && 0 < b.w && 0 < b.h
  }

  predicate Disjoint(a: Box, b: Box) {
    a.x + a.w <= b.x || b.x + b.w <= a.x || a.y + a.h <= b.y || b.y + b.h <= a.y
  }

  /** The packing so far: boxes inside the target, pairwise disjoint, all below the skyline. */
  ghost predicate IsPacking(sky: seq<Point>, boxes: seq<Box>, width: int, height: int) {
    && (forall k | 0 <= k < |boxes| :: Inside(boxes[k], width, height) && Below(sky, boxes[k]))
    && (forall k, m | 0 <= k < m < |boxes| :: Disjoint(boxes[k], boxes[m]))
  }

  /** The segment over column x. */
  lemma {:induction false} SegmentAt(sky: seq<Point>, width: int, height: int, x: int, n: nat) returns (i: nat)
    requires IsSky(sky, width, height) && n < |sky| && 0 <= x < sky[n].x
    ensures i < n && sky[i].x <= x < sky[i + 1].x
  {
    if sky[n - 1].x <= x {
      i := n - 1;
    } else {
      i := SegmentAt(sky, width, height, x, n - 1);
    }
  }

  lemma SkyOrder(sky: seq<Point>, width: int, height: int, g: nat, t: nat)
    requires IsSky(sky, width, height) && g + 1 < |sky| && t < |sky|
    ensures if t <= g then sky[t].x <= sky[g].x else sky[g + 1].x <= sky[t].x
  {
  }

  lemma LevelUnique(sky: seq<Point>, x: int, w: int, y: int, y': int)
    requires IsLevel(sky, x, w, y) && IsLevel(sky, x, w, y')
    ensures y == y'
  {
  }

  // ---------- Placing ----------

  /** The first point from `c` on whose successor lies beyond `end`. */
  function Cut(sky: seq<Point>, c: nat, end: int): (r: nat)
    requires c < |sky|
    ensures c <= r < |sky|
    ensures r > c ==> sky[r].x <= end
    ensures r + 1 < |sky| ==> sky[r + 1].x > end
    decreases |sky| - c
  {
    if c + 1 < |sky| && sky[c + 1].x <= end then Cut(sky, c + 1, end) else c
  }

  ghost predicate IsCut(sky: seq<Point>, lo: int, end: int, c: int) {
    0 <= lo <= c < |sky| && (c > lo ==> sky[c].x <= end) && (c + 1 < |sky| ==> end < sky[c + 1].x)
  }

  lemma CutUnique(sky: seq<Point>, width: int, height: int, lo: nat, end: int, c: nat)
    requires IsSky(sky, width, height) && IsCut(sky, lo, end, c)
    ensures c == Cut(sky, lo, end)
  {
    var r := Cut(sky, lo, end);
    hide Cut;
    if c < r { SkyOrder(sky, width, height, c, r); }
    if r < c { SkyOrder(sky, width, height, r, c); }
  }

  /** How many points in front stay: the one at `i` does if it starts left of x. */
  function Kept(sky: seq<Point>, i: nat, x: int): nat
    requires i < |sky|
  {
    if sky[i].x < x then i + 1 else i
  }

  function Min(a: int, b: int): int { if a < b then a else b }
  function Max(a: int, b: int): int { if a < b then b else a }

  /** The skyline after a box with columns x to x + w and upper edge `top` is put at or behind point `i`. */
  function Place(sky: seq<Point>, i: nat, x: int, w: int, top: int): seq<Point>
    requires i < |sky| - 1
  {
    var lo := Kept(sky, i, x);
    var c := Cut(sky, lo, x + w);
    sky[..lo] + [Point(x, top), Point(Max(sky[c].x, x + w), sky[c].y)] + sky[c + 1..]
  }

  /** A spot behind point `i` for a box of width `w`, rounded up to `aligned`, that leaves no gap behind the box. */
  ghost predicate IsSpot(sky: seq<Point>, i: int, x: int, w: int, aligned: int, width: int) {
    && 0 <= i < |sky| - 1
    && sky[i].x <= x < sky[i + 1].x
    && 0 < w <= aligned && x + aligned <= width
    && (sky[i].x == x || sky[i + 1].x <= x + aligned)
  }

  /** Where the new top ends: with the box, or at a point behind a box that was moved to the left of that point. */
  function TopEnd(sky: seq<Point>, i: nat, x: int, w: int): int
    requires i < |sky| - 1
  {
    if sky[i].x == x then x + w else Max(x + w, sky[i + 1].x)
  }

  lemma PlaceIs(sky: seq<Point>, width: int, height: int, i: nat, x: int, w: int, top: int, c: nat)
    requires IsSky(sky, width, height) && i < |sky| - 1 && IsCut(sky, Kept(sky, i, x), x + w, c)
    ensures Place(sky, i, x, w, top)
         == sky[..Kept(sky, i, x)] + [Point(x, top), Point(Max(sky[c].x, x + w), sky[c].y)] + sky[c + 1..]
  {
    hide IsSky, IsCut, Cut;
    CutUnique(sky, width, height, Kept(sky, i, x), x + w, c);
  }

  lemma PlaceIsSky(sky: seq<Point>, i: nat, x: int, w: int, aligned: int, top: int, width: int, height: int)
    requires IsSky(sky, width, height) && IsSpot(sky, i, x, w, aligned, width) && 0 <= top <= height
    ensures IsSky(Place(sky, i, x, w, top), width, height)
  {
    hide IsSky, IsSpot, Cut, Kept;
    SpotStart(sky, i, x, w, aligned, width, height);
    PlaceEdges(sky, i, x, w, aligned, width, height);
    var lo := Kept(sky, i, x);
    var c := Cut(sky, lo, x + w);
    Spliced(sky, lo, c, Point(x, top), Point(Max(sky[c].x, x + w), sky[c].y), width, height);
  }

  /** The new points fit between the ones that stay. */
  lemma PlaceEdges(sky: seq<Point>, i: nat, x: int, w: int, aligned: int, width: int, height: int)
    requires IsSky(sky, width, height) && IsSpot(sky, i, x, w, aligned, width)
    ensures var lo := Kept(sky, i, x);
            && lo < |sky| && (if lo == 0 then x == 0 else sky[lo - 1].x < x)
            && var c := Cut(sky, lo, x + w);
               var right := Max(sky[c].x, x + w);
               x < right && if c + 1 < |sky| then right < sky[c + 1].x else right == sky[c].x
  {
    hide Cut;
  }

  /** Cutting points `lo` to `c` out of a skyline and two points in that fit between their neighbours. */
  lemma Spliced(sky: seq<Point>, lo: nat, c: nat, p: Point, q: Point, width: int, height: int)
    requires IsSky(sky, width, height) && lo <= c < |sky|
    requires if lo == 0 then p.x == 0 else sky[lo - 1].x < p.x
    requires p.x < q.x && 0 <= p.y <= height && sky[c].x <= q.x && q.y == sky[c].y
    requires if c + 1 < |sky| then q.x < sky[c + 1].x else q == sky[c]
    ensures IsSky(sky[..lo] + [p, q] + sky[c + 1..], width, height)
  {
    var sky' := sky[..lo] + [p, q] + sky[c + 1..];
    forall i, j | 0 <= i < j < |sky'|
      ensures sky'[i].x < sky'[j].x
    {
      assert sky'[i] == if i < lo then sky[i] else if i == lo then p else if i == lo + 1 then q
                        else sky[i + c - lo - 1];
      assert sky'[j] == if j < lo then sky[j] else if j == lo then p else if j == lo + 1 then q
                        else sky[j + c - lo - 1];
    }
    forall i | 0 <= i < |sky'| - 1
      ensures 0 <= sky'[i].y <= height
    {
      assert sky'[i] == if i < lo then sky[i] else if i == lo then p else if i == lo + 1 then q
                        else sky[i + c - lo - 1];
    }
  }

  /** Segment `k` of `sky'` is a piece of segment `m` of `sky`, as high as that. */
  ghost predicate Piece(sky': seq<Point>, k: int, sky: seq<Point>, m: int) {
    && 0 <= k < |sky'| - 1 && 0 <= m < |sky| - 1
    && sky[m].x <= sky'[k].x && sky'[k + 1].x <= sky[m + 1].x && sky[m].y == sky'[k].y
  }

  /** Segments of the new skyline: the new top, or a piece of an old segment left or right of the box. */
  lemma PlaceSegments(sky: seq<Point>, i: nat, x: int, w: int, aligned: int, top: int, width: int, height: int, k: nat)
    returns (isTop: bool, m: int)
    requires IsSky(sky, width, height) && IsSpot(sky, i, x, w, aligned, width)
    requires k < |Place(sky, i, x, w, top)| - 1
    ensures var sky' := Place(sky, i, x, w, top);
            var end := TopEnd(sky, i, x, w);
            && x + w <= end <= x + aligned
            && if isTop then sky'[k] == Point(x, top) && sky'[k + 1].x == end
               else (sky'[k + 1].x <= x || end <= sky'[k].x) && Piece(sky', k, sky, m)
  {
    hide Cut;
    var lo := Kept(sky, i, x);
    var c := Cut(sky, lo, x + w);
    var sky' := Place(sky, i, x, w, top);
    isTop, m := k == lo, if k < lo then k else c + (k - lo - 1);
  }

  /** Segment `k` alone decides the level over a column of its own. */
  lemma ColumnLevel(sky: seq<Point>, width: int, height: int, k: nat, column: int, y: int)
    requires IsSky(sky, width, height) && k < |sky| - 1 && sky[k].x <= column < sky[k + 1].x
    ensures IsLevel(sky, column, 1, y) <==> y == sky[k].y
  {
    assert Meets(sky, k, column, 1);
    forall m | Meets(sky, m, column, 1)
      ensures m == k
    {
      SkyOrder(sky, width, height, k, m);
      SkyOrder(sky, width, height, m, k);
    }
  }

  /** Column by column: the new top over the box, the old skyline everywhere else. */
  lemma PlaceMeaning(sky: seq<Point>, i: nat, x: int, w: int, aligned: int, top: int, width: int, height: int,
                     column: int, y: int)
    requires IsSky(sky, width, height) && IsSpot(sky, i, x, w, aligned, width) && 0 <= top <= height
    requires 0 <= column < width
    ensures IsLevel(Place(sky, i, x, w, top), column, 1, y) <==>
            if x <= column < TopEnd(sky, i, x, w) then y == top else IsLevel(sky, column, 1, y)
  {
    hide Place, IsLevel, IsSpot;
    SpotStart(sky, i, x, w, aligned, width, height);
    PlaceIsSky(sky, i, x, w, aligned, top, width, height);
    var sky' := Place(sky, i, x, w, top);
    var k := SegmentAt(sky', width, height, column, |sky'| - 1);
    var isTop, m := PlaceSegments(sky, i, x, w, aligned, top, width, height, k);
    hide IsSky, TopEnd;
    ColumnLevel(sky', width, height, k, column, y);
    if !isTop { ColumnLevel(sky, width, height, m, column, y); }
  }

  /** What lay below the skyline still does after a box has been placed on the level over its aligned columns. */
  lemma PlaceKeepsBelow(sky: seq<Point>, i: nat, b: Box, aligned: int, width: int, height: int, o: Box)
    requires IsSky(sky, width, height) && IsSpot(sky, i, b.x, b.w, aligned, width)
    requires IsLevel(sky, b.x, aligned, b.y) && b.h > 0
    requires Inside(o, width, height) && Below(sky, o)
    ensures Below(Place(sky, i, b.x, b.w, b.y + b.h), o)
  {
    hide Place, IsSky, IsSpot, IsLevel, Below, Disjoint;
    SpotStart(sky, i, b.x, b.w, aligned, width, height);
    LevelClears(sky, b, aligned, width, height, o);
    var sky' := Place(sky, i, b.x, b.w, b.y + b.h);
    forall k | Meets(sky', k, o.x, o.w)
      ensures o.y + o.h <= sky'[k].y
    {
      var isTop, m := PlaceSegments(sky, i, b.x, b.w, aligned, b.y + b.h, width, height, k);
      if !isTop { PieceClears(sky', k, sky, m, o); }
    }
    AllBelow(sky', o);
  }

  /** A piece of an old segment stays clear of what lay below that. */
  lemma PieceClears(sky': seq<Point>, k: int, sky: seq<Point>, m: int, o: Box)
    requires Piece(sky', k, sky, m) && Meets(sky', k, o.x, o.w) && Below(sky, o)
    ensures o.y + o.h <= sky'[k].y
  {
    assert Meets(sky, m, o.x, o.w);
  }

  lemma AllBelow(sky: seq<Point>, o: Box)
    requires forall k | Meets(sky, k, o.x, o.w) :: o.y + o.h <= sky[k].y
    ensures Below(sky, o)
  {
  }

  /** A box on the level over its columns clears everything below the skyline in those columns. */
  lemma LevelClears(sky: seq<Point>, b: Box, aligned: int, width: int, height: int, o: Box)
    requires IsSky(sky, width, height) && 0 <= b.x && 0 < b.w <= aligned && b.x + aligned <= width
    requires IsLevel(sky, b.x, aligned, b.y)
    requires Inside(o, width, height) && Below(sky, o)
    ensures b.x < o.x + o.w && o.x < b.x + aligned ==> o.y + o.h <= b.y
    ensures Disjoint(o, b)
  {
    hide IsSky, IsLevel, Below;
    if b.x < o.x + o.w && o.x < b.x + aligned {
      SkyEnds(sky, width, height);
      var m := SegmentAt(sky, width, height, Max(b.x, o.x), |sky| - 1);
      SegmentBetween(sky, m, b, aligned, o);
    }
  }

  lemma SkyEnds(sky: seq<Point>, width: int, height: int)
    requires IsSky(sky, width, height)
    ensures |sky| >= 2 && sky[|sky| - 1].x == width
  {
  }

  /** A segment under both: the one box ends below it, and the level of the other is no lower. */
  lemma SegmentBetween(sky: seq<Point>, m: nat, b: Box, aligned: int, o: Box)
    requires m < |sky| - 1 && sky[m].x <= Max(b.x, o.x) < sky[m + 1].x
    requires b.x < o.x + o.w && o.x < b.x + aligned && 0 < aligned && 0 < o.w
    requires IsLevel(sky, b.x, aligned, b.y) && Below(sky, o)
    ensures o.y + o.h <= b.y
  {
    assert Meets(sky, m, b.x, aligned) && Meets(sky, m, o.x, o.w);
  }

  lemma PlaceCoversNew(sky: seq<Point>, i: nat, b: Box, aligned: int, width: int, height: int)
    requires IsSky(sky, width, height) && IsSpot(sky, i, b.x, b.w, aligned, width)
    ensures Below(Place(sky, i, b.x, b.w, b.y + b.h), b)
  {
    hide Place, Cut, Kept;
    var sky' := Place(sky, i, b.x, b.w, b.y + b.h);
    forall k | Meets(sky', k, b.x, b.w)
      ensures b.y + b.h <= sky'[k].y
    {
      var isTop, m := PlaceSegments(sky, i, b.x, b.w, aligned, b.y + b.h, width, height, k);
    }
  }

  lemma PlaceClears(sky: seq<Point>, boxes: seq<Box>, i: nat, b: Box, aligned: int, width: int, height: int, k: nat)
    requires IsSky(sky, width, height) && IsPacking(sky, boxes, width, height) && k < |boxes|
    requires IsSpot(sky, i, b.x, b.w, aligned, width) && IsLevel(sky, b.x, aligned, b.y) && 0 < b.h
    ensures Below(Place(sky, i, b.x, b.w, b.y + b.h), boxes[k]) && Disjoint(boxes[k], b)
  {
    hide Place, Below, Disjoint, IsLevel, IsSky, IsPacking;
    SpotStart(sky, i, b.x, b.w, aligned, width, height);
    PackingAt(sky, boxes, width, height, k);
    PlaceKeepsBelow(sky, i, b, aligned, width, height, boxes[k]);
    LevelClears(sky, b, aligned, width, height, boxes[k]);
  }

  lemma PlaceAddsBox(sky: seq<Point>, boxes: seq<Box>, i: nat, b: Box, aligned: int, width: int, height: int)
    requires IsSky(sky, width, height) && IsPacking(sky, boxes, width, height) && Inside(b, width, height)
    requires IsSpot(sky, i, b.x, b.w, aligned, width) && IsLevel(sky, b.x, aligned, b.y)
    ensures IsPacking(Place(sky, i, b.x, b.w, b.y + b.h), boxes + [b], width, height)
  {
    hide Place, Below, Disjoint, IsLevel, IsSky, IsPacking;
    forall k: nat | k < |boxes|
      ensures Below(Place(sky, i, b.x, b.w, b.y + b.h), boxes[k]) && Disjoint(boxes[k], b)
    {
      PlaceClears(sky, boxes, i, b, aligned, width, height, k);
    }
    PlaceCoversNew(sky, i, b, aligned, width, height);
    PackingSnoc(sky, Place(sky, i, b.x, b.w, b.y + b.h), boxes, b, width, height);
  }

  /** Placing on the level keeps the packing: the new box is inside, disjoint from all others, and all stay below. */
  lemma PlaceKeepsPacking(sky: seq<Point>, boxes: seq<Box>, i: nat, b: Box, aligned: int, width: int, height: int)
    requires IsSky(sky, width, height) && IsPacking(sky, boxes, width, height)
    requires IsSpot(sky, i, b.x, b.w, aligned, width)
    requires IsLevel(sky, b.x, aligned, b.y) && 0 < b.h && b.y + b.h <= height
    ensures IsSky(Place(sky, i, b.x, b.w, b.y + b.h), width, height)
    ensures IsPacking(Place(sky, i, b.x, b.w, b.y + b.h), boxes + [b], width, height)
  {
    hide Place, IsLevel, IsSky, IsPacking;
    SpotStart(sky, i, b.x, b.w, aligned, width, height);
    LevelInRange(sky, width, height, b.x, aligned, b.y);
    PlaceIsSky(sky, i, b.x, b.w, aligned, b.y + b.h, width, height);
    PlaceAddsBox(sky, boxes, i, b, aligned, width, height);
  }

  lemma SpotStart(sky: seq<Point>, i: int, x: int, w: int, aligned: int, width: int, height: int)
    requires IsSky(sky, width, height) && IsSpot(sky, i, x, w, aligned, width)
    ensures 0 <= x && x + w <= width && 0 < w <= aligned && x + aligned <= width && i < |sky| - 1
  {
  }

  lemma PackingAt(sky: seq<Point>, boxes: seq<Box>, width: int, height: int, k: nat)
    requires IsPacking(sky, boxes, width, height) && k < |boxes|
    ensures Inside(boxes[k], width, height) && Below(sky, boxes[k])
  {
  }

  lemma PackingSnoc(sky: seq<Point>, sky': seq<Point>, boxes: seq<Box>, b: Box, width: int, height: int)
    requires IsPacking(sky, boxes, width, height)
    requires Inside(b, width, height) && Below(sky', b)
    requires forall k | 0 <= k < |boxes| :: Below(sky', boxes[k]) && Disjoint(boxes[k], b)
    ensures IsPacking(sky', boxes + [b], width, height)
  {
    hide Below, Disjoint, Inside;
  }

  lemma LevelInRange(sky: seq<Point>, width: int, height: int, x: int, w: int, y: int)
    requires IsSky(sky, width, height) && IsLevel(sky, x, w, y)
    ensures 0 <= y <= height
  {
  }

  // ---------- Where the level is lowest ----------

  /** Lowest over all integer columns, leftmost among the lowest. */
  ghost predicate IsBottomLeft(sky: seq<Point>, aligned: int, width: int, x: int, y: int) {
    && 0 <= x <= width - aligned && IsLevel(sky, x, aligned, y)
    && forall x', y' | 0 <= x' <= width - aligned && IsLevel(sky, x', aligned, y') :: y < y' || (y == y' && x <= x')
  }

  /** Sliding a box left to the start of the segment under its left edge never raises it. */
  lemma LeftEdgeSuffices(sky: seq<Point>, width: int, height: int, i: nat, x: int, aligned: int, y0: int, y: int)
    requires IsSky(sky, width, height) && i < |sky| - 1 && sky[i].x <= x < sky[i + 1].x && x + aligned <= width
    requires IsLevel(sky, sky[i].x, aligned, y0) && IsLevel(sky, x, aligned, y)
    ensures y0 <= y
  {
    var k :| Meets(sky, k, sky[i].x, aligned) && sky[k].y == y0;
    assert Meets(sky, k, x, aligned);
  }

  // ---------- The level as the search loop finds it ----------

  lemma LevelFound(sky: seq<Point>, width: int, height: int, k: nat, g: nat, x: int, w: int, y: int)
    requires IsSky(sky, width, height) && k < g < |sky|
    requires sky[k].x <= x < sky[k + 1].x && 0 < w && sky[g - 1].x < x + w <= sky[g].x
    requires forall i | k <= i < g :: sky[i].y <= y
    requires y >= 0 && (y == 0 || exists i :: k <= i < g && sky[i].y == y)
    ensures IsLevel(sky, x, w, y)
  {
    hide IsSky;
    forall i | Meets(sky, i, x, w)
      ensures sky[i].y <= y
    {
      MeetsIff(sky, width, height, k, g, x, w, i);
    }
    MeetsIff(sky, width, height, k, g, x, w, k);
    var m := k;
    if y > 0 {
      m :| k <= m < g && sky[m].y == y;
      MeetsIff(sky, width, height, k, g, x, w, m);
    } else {
      GroundIsZero(sky, width, height, k);
    }
  }

  /** The segments from the one that carries column x up to the one that carries the last column. */
  lemma MeetsIff(sky: seq<Point>, width: int, height: int, k: nat, g: nat, x: int, w: int, i: int)
    requires IsSky(sky, width, height) && k < g < |sky| && sky[k].x <= x < sky[k + 1].x && 0 < w
    requires sky[g - 1].x < x + w <= sky[g].x
    ensures Meets(sky, i, x, w) <==> k <= i < g
  {
  }

  lemma GroundIsZero(sky: seq<Point>, width: int, height: int, k: nat)
    requires IsSky(sky, width, height) && k < |sky| - 1
    ensures sky[k].y >= 0
  {
  }

  // ---------- The search for the best spot ----------

  /** Among segments before `n`: the lowest level, leftmost if tied. */
  ghost predicate IsBestStart(sky: seq<Point>, n: nat, aligned: int, i: int, y: int) {
    && 0 <= i < n < |sky| && IsLevel(sky, sky[i].x, aligned, y)
    && forall k, y' | 0 <= k < n && IsLevel(sky, sky[k].x, aligned, y') :: y < y' || (y == y' && i <= k)
  }

  lemma BestStartStep(sky: seq<Point>, n: nat, aligned: int, i: int, y: int, y': int)
    requires n + 1 < |sky| && IsLevel(sky, sky[n].x, aligned, y')
    requires n > 0 ==> IsBestStart(sky, n, aligned, i, y)
    ensures if n == 0 || y' < y then IsBestStart(sky, n + 1, aligned, n, y') else IsBestStart(sky, n + 1, aligned, i, y)
  {
    forall y2 | IsLevel(sky, sky[n].x, aligned, y2)
      ensures y2 == y'
    {
      LevelUnique(sky, sky[n].x, aligned, y2, y');
    }
  }

  /** The best segment start is the best of all columns. */
  lemma BestStartIsBottomLeft(sky: seq<Point>, width: int, height: int, n: nat, aligned: int, i: int, y: int)
    requires IsSky(sky, width, height) && IsBestStart(sky, n, aligned, i, y)
    requires 0 < aligned && sky[i].x + aligned <= width && width < sky[n].x + aligned
    ensures IsBottomLeft(sky, aligned, width, sky[i].x, y)
  {
    forall x', y' | 0 <= x' <= width - aligned && IsLevel(sky, x', aligned, y')
      ensures y < y' || (y == y' && sky[i].x <= x')
    {
      var m := SegmentAt(sky, width, height, x', n);
      var y0 := LevelOf(sky, width, height, sky[m].x, aligned);
      LeftEdgeSuffices(sky, width, height, m, x', aligned, y0, y');
    }
  }

  /** Every span inside the target has a level. */
  lemma LevelOf(sky: seq<Point>, width: int, height: int, x: int, w: int) returns (y: int)
    requires IsSky(sky, width, height) && 0 <= x && 0 < w && x + w <= width
    ensures IsLevel(sky, x, w, y)
  {
    var m := SegmentAt(sky, width, height, x, |sky| - 1);
    y := LevelFrom(sky, width, height, x, w, m);
  }

  lemma {:induction false} LevelFrom(sky: seq<Point>, width: int, height: int, x: int, w: int, m: nat) returns (y: int)
    requires IsSky(sky, width, height) && m < |sky| - 1 && Meets(sky, m, x, w)
    ensures forall i | m <= i && Meets(sky, i, x, w) :: sky[i].y <= y
    ensures exists i :: m <= i && Meets(sky, i, x, w) && sky[i].y == y
    ensures (m == 0 || sky[m].x <= x) ==> IsLevel(sky, x, w, y)
    decreases |sky| - m
  {
    if m + 1 < |sky| - 1 && sky[m + 1].x < x + w {
      y := LevelFrom(sky, width, height, x, w, m + 1);
      if y < sky[m].y { y := sky[m].y; }
    } else {
      y := sky[m].y;
    }
  }

  /** The leftmost of the lowest columns is always the left end of a segment. */
  lemma BottomLeftAtPoint(sky: seq<Point>, width: int, height: int, i: nat, aligned: int, x: int, y: int)
    requires IsSky(sky, width, height) && 0 < aligned && IsBottomLeft(sky, aligned, width, x, y)
    requires i < |sky| - 1 && sky[i].x <= x < sky[i + 1].x
    ensures x == sky[i].x
  {
    var y0 := LevelOf(sky, width, height, sky[i].x, aligned);
    LeftEdgeSuffices(sky, width, height, i, x, aligned, y0, y);
  }

  /** No position fits a box of this width and height. */
  ghost predicate NothingFits(sky: seq<Point>, aligned: int, h: int, width: int, height: int) {
    forall x, y | 0 <= x <= width - aligned && IsLevel(sky, x, aligned, y) :: y + h > height
  }

  lemma SomethingFits(sky: seq<Point>, aligned: int, h: int, width: int, height: int, x: int, y: int)
    requires 0 <= x <= width - aligned && IsLevel(sky, x, aligned, y) && y + h <= height
    ensures !NothingFits(sky, aligned, h, width, height)
  {
  }

  /** The lowest level of all positions where the box fits vertically. */
  ghost predicate IsLowestFit(sky: seq<Point>, aligned: int, h: int, width: int, height: int, y: int) {
    && y + h <= height
    && forall x', y' | 0 <= x' <= width - aligned && IsLevel(sky, x', aligned, y') && y' + h <= height :: y <= y'
  }

  /** If the bottom-left position is too high, so is every other. */
  lemma BottomLeftDecides(sky: seq<Point>, aligned: int, h: int, width: int, height: int, x: int, y: int)
    requires IsBottomLeft(sky, aligned, width, x, y)
    ensures y + h > height ==> NothingFits(sky, aligned, h, width, height)
    ensures y + h <= height ==> IsLowestFit(sky, aligned, h, width, height, y)
  {
  }

  /** No segment start before `n` offers a fit lower than `y`. */
  ghost predicate NoLowerStart(sky: seq<Point>, n: nat, aligned: int, h: int, height: int, found: bool, y: int) {
    && n < |sky|
    && forall k, y' | 0 <= k < n && IsLevel(sky, sky[k].x, aligned, y') && y' + h <= height :: found && y <= y'
  }

  lemma NoLowerStartStep(sky: seq<Point>, n: nat, aligned: int, h: int, height: int, found: bool, y: int, yn: int,
                         found': bool, y': int)
    requires n + 1 < |sky| && IsLevel(sky, sky[n].x, aligned, yn) && NoLowerStart(sky, n, aligned, h, height, found, y)
    requires found ==> found' && y' <= y
    requires yn + h <= height ==> found' && y' <= yn
    ensures NoLowerStart(sky, n + 1, aligned, h, height, found', y')
  {
    forall y2 | IsLevel(sky, sky[n].x, aligned, y2)
      ensures y2 == yn
    {
      LevelUnique(sky, sky[n].x, aligned, y2, yn);
    }
  }

  /** What no segment start offers, no column offers. */
  lemma StartsDecide(sky: seq<Point>, width: int, height: int, n: nat, aligned: int, h: int, found: bool, y: int)
    requires IsSky(sky, width, height) && NoLowerStart(sky, n, aligned, h, height, found, y)
    requires 0 < aligned && width < sky[n].x + aligned
    ensures !found ==> NothingFits(sky, aligned, h, width, height)
    ensures found && y + h <= height ==> IsLowestFit(sky, aligned, h, width, height, y)
  {
    forall x', y' | 0 <= x' <= width - aligned && IsLevel(sky, x', aligned, y') && y' + h <= height
      ensures found && y <= y'
    {
      var m := SegmentAt(sky, width, height, x', n);
      var y0 := LevelOf(sky, width, height, sky[m].x, aligned);
      LeftEdgeSuffices(sky, width, height, m, x', aligned, y0, y');
    }
  }
}
