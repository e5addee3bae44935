/** The skyline packer over its linked nodes: an active list, a free list, and the search for a spot. */
module RectPack {
  import opened Skyline
  import opened SkylineWaste
  import opened Words

  class Node {
    var x: int
    var y: int
    var next: Node?

    constructor () {
      next := null;
    }
  }

  /** `head` starts a null-terminated list that runs through `s`. */
  ghost predicate Linked(head: Node?, s: seq<Node>)
    reads s
  {
    && head == (if s == [] then null else s[0])
    && forall i {:trigger s[i].next} | 0 <= i < |s| :: s[i].next == if i + 1 < |s| then s[i + 1] else null
  }

  /** From position `k` on the nodes of `s` are chained to its end. */
  ghost predicate LinkedFrom(s: seq<Node>, k: nat)
    reads s
  {
    forall i {:trigger s[i].next} | k <= i < |s| :: s[i].next == if i + 1 < |s| then s[i + 1] else null
  }

  lemma NotIn(n: Node, fr: seq<Node>, fr': seq<Node>, act: seq<Node>, lo: nat, c: nat)
    requires n !in fr && n !in act && lo <= c <= |act| && multiset(fr') == multiset(fr) + multiset(act[lo..c])
    ensures n !in fr'
  {
    assert n in fr' <==> n in multiset(fr');
  }

  /** No node is lost or doubled when the new one replaces those from `lo` up to `c`. */
  lemma Recount(act: seq<Node>, lo: nat, c: nat, n: Node, fr: seq<Node>, fr': seq<Node>)
    requires lo <= c <= |act| && multiset(fr') == multiset(fr) + multiset(act[lo..c])
    requires Distinct(act + ([n] + fr))
    ensures multiset(act[..lo] + [n] + act[c..]) + multiset(fr') == multiset(act) + multiset([n] + fr)
    ensures Distinct(act[..lo] + [n] + act[c..] + fr')
    ensures |act[..lo] + [n] + act[c..]| + |fr'| == |act| + |[n] + fr|
  {
    assert act == act[..lo] + act[lo..c] + act[c..];
    DistinctPermuted(act + ([n] + fr), act[..lo] + [n] + act[c..] + fr');
    assert |multiset(fr')| == |fr| + |act[lo..c]|;
  }

  lemma SamePool(a: seq<Node>, f: seq<Node>, a': seq<Node>, f': seq<Node>)
    requires multiset(a') + multiset(f') == multiset(a) + multiset(f)
    ensures forall n :: (n in a' || n in f') <==> (n in a || n in f)
  {
    forall n: Node
      ensures (n in a' || n in f') <==> (n in a || n in f)
    {
      assert (n in a' || n in f') <==> n in multiset(a') + multiset(f');
      assert (n in a || n in f) <==> n in multiset(a) + multiset(f);
    }
  }

  /** The lists named anew hold the same nodes, each once. */
  lemma Renamed(act: seq<Node>, lo: nat, c: nat, n: Node, fr: seq<Node>, fr': seq<Node>)
    requires lo <= c <= |act| && multiset(fr') == multiset(fr) + multiset(act[lo..c])
    requires Distinct(act + ([n] + fr))
    ensures var act' := act[..lo] + [n] + act[c..];
            && Distinct(act' + fr') && |act'| + |fr'| == |act| + |[n] + fr|
            && (set m | m in act') + (set m | m in fr') == (set m | m in act) + (set m | m in [n] + fr)
  {
    hide Distinct;
    Recount(act, lo, c, n, fr, fr');
    SamePool(act, [n] + fr, act[..lo] + [n] + act[c..], fr');
  }

  lemma {:induction false} DistinctCounts(s: seq<Node>)
    ensures Distinct(s) <==> forall n | n in s :: multiset(s)[n] == 1
  {
    if s != [] {
      var n, t := s[0], s[1..];
      DistinctCounts(t);
      assert s == [n] + t;
      if Distinct(s) {
        assert forall i, j | 0 <= i < j < |t| :: t[i] == s[i + 1] && t[j] == s[j + 1];
        assert n !in t;
      } else if n !in t {
        assert !Distinct(t) by {
          var i, j :| 0 <= i < j < |s| && s[i] == s[j];
          assert i > 0 && t[i - 1] == t[j - 1];
        }
        var m :| m in t && multiset(t)[m] != 1;
        assert multiset(s)[m] != 1;
      } else {
        assert multiset(s)[n] != 1;
      }
    }
  }

  lemma DistinctPermuted(s: seq<Node>, t: seq<Node>)
    requires Distinct(s) && multiset(s) == multiset(t)
    ensures Distinct(t)
  {
    DistinctCounts(s);
    DistinctCounts(t);
    assert forall n | n in t :: n in multiset(s) && n in s;
  }

  lemma LinkedTail(n: Node, s: seq<Node>)
    requires Linked(n, [n] + s)
    ensures Linked(n.next, s)
  {
    var t := [n] + s;
    assert t[0].next == if s == [] then null else s[0];
    forall i | 0 <= i < |s|
      ensures s[i].next == if i + 1 < |s| then s[i + 1] else null
    {
      assert t[i + 1].next == s[i].next;
      if i + 2 < |t| { assert t[i + 2] == s[i + 1]; }
    }
  }

  lemma LinkedPush(n: Node, s: seq<Node>)
    requires LinkedFrom(s, 0) && n.next == if s == [] then null else s[0]
    ensures Linked(n, [n] + s)
  {
    var t := [n] + s;
    forall i | 0 <= i < |t|
      ensures t[i].next == if i + 1 < |t| then t[i + 1] else null
    {
      if i > 0 { assert t[i] == s[i - 1]; }
      if i + 1 < |t| { assert t[i + 1] == s[i]; }
    }
  }

  ghost predicate Distinct(s: seq<Node>) {
    forall i, j | 0 <= i < j < |s| :: s[i] != s[j]
  }

  lemma OthersDiffer(s: seq<Node>, c: nat)
    requires Distinct(s) && c < |s|
    ensures forall k | 0 <= k < |s| && k != c :: s[k] != s[c]
  {
  }

  ghost function SkyOf(s: seq<Node>): (sky: seq<Point>)
    reads s
    ensures |sky| == |s| && forall i | 0 <= i < |s| :: sky[i] == Point(s[i].x, s[i].y)
  {
    seq(|s|, i requires 0 <= i < |s| reads s => Point(s[i].x, s[i].y))
  }

  /** `Found` names the link to the chosen node by the node before it, `null` standing for the head of the list. */
  datatype FindResult = NotFound | Found(prev: Node?, x: int, y: int)

  /** Box widths are rounded up to multiples of this so that the nodes last, or so the source intends. */
  function AlignFor(width: int, numNodes: int): (align: int)
    requires width > 0 && numNodes > 0
    ensures align > 0
  {
    AtLeastOne(width + numNodes - 1, numNodes);
    (width + numNodes - 1) / numNodes
  }

  /** It is the least with which that many nodes, one for each multiple, cover the width. */
  lemma AlignIsLeast(width: int, numNodes: int, other: nat)
    requires width > 0 && numNodes > 0
    ensures width <= numNodes * other <==> AlignFor(width, numNodes) <= other
  {
    var a, n := width + numNodes - 1, numNodes;
    var q := a / n;
    assert a == n * q + a % n;
    if other >= q { Multiples(n, q, other); } else { Multiples(n, other, q - 1); }
    assert n * q == n * (q - 1) + n;
  }

  lemma Multiples(n: nat, a: int, b: int)
    requires a <= b
    ensures n * a <= n * b
  {
  }

  /** The least multiple of `align` that is no less than w. */
  function RoundUp(w: int, align: int): (r: int)
    requires 0 < w && 0 < align
    ensures w <= r < w + align && r % align == 0
  {
    var sum := w + align - 1;
    MultipleBelow(sum, align);
    sum - sum % align
  }

  lemma MultipleBelow(a: int, b: int)
    requires 0 < b && 0 <= a
    ensures (a - a % b) % b == 0
  {
    ModUnique(a - a % b, b, a / b, 0);
  }

  lemma AtLeastOne(a: int, b: int)
    requires 0 < b <= a
    ensures a / b > 0
  {
  }

  /** What a target was set up with. */
  datatype Setting = Setting(width: int, height: int, align: int, bestFit: bool)

  /** Skyline and number of free nodes. */
  datatype Shelf = Shelf(sky: seq<Point>, free: nat)

  /**
   * A box of this size can be placed: its rounded width is no wider than the target, a node is free and some position
   * fits.
   */
  ghost predicate CanPlace(g: Setting, s: Shelf, w: int, h: int)
    requires 0 < w && 0 < g.align
  {
    var aligned := RoundUp(w, g.align);
    aligned <= g.width && h <= g.height && s.free > 0 && !NothingFits(s.sky, aligned, h, g.width, g.height)
  }

  /** How a placed box relates the shelf before and after it. */
  ghost predicate Places(g: Setting, s: Shelf, s': Shelf, b: Box)
    requires 0 < g.align
  {
    && 0 < b.w && 0 < b.h && b.y + b.h <= g.height && s.free > 0
    && var aligned := RoundUp(b.w, g.align);
       && IsLevel(s.sky, b.x, aligned, b.y)
       && (!g.bestFit ==> IsBottomLeft(s.sky, aligned, g.width, b.x, b.y))
       && (g.bestFit ==> IsBestFit(s.sky, aligned, b.h, g.width, g.height, b.x, b.y))
       && (exists i :: IsSpot(s.sky, i, b.x, b.w, aligned, g.width) && s'.sky == Place(s.sky, i, b.x, b.w, b.y + b.h))
       && s'.free == s.free + |s.sky| - |s'.sky|
  }

  /** Room for a box, spelled out: wide and high enough, a free node, and a column where it does not stick out. */
  lemma CanPlaceIff(g: Setting, s: Shelf, w: int, h: int)
    requires 0 < w && 0 < g.align
    ensures CanPlace(g, s, w, h) <==>
            var aligned := RoundUp(w, g.align);
            && aligned <= g.width && h <= g.height && s.free > 0
            && exists x, y :: 0 <= x <= g.width - aligned && IsLevel(s.sky, x, aligned, y) && y + h <= g.height
  {
    hide IsLevel;
  }

  /**
   * A placed box lies on the skyline over its rounded width, inside the target. No other column is lower; among those
   * as low none is further left or, for best fit, where only columns count at which the box fits, none wastes less, and
   * none that wastes the same is further left.
   */
  lemma PlacesMeaning(g: Setting, s: Shelf, s': Shelf, b: Box, x: int, y: int)
    requires 0 < g.align && Places(g, s, s', b)
    requires var aligned := RoundUp(b.w, g.align); 0 <= x <= g.width - aligned && IsLevel(s.sky, x, aligned, y)
    ensures var aligned := RoundUp(b.w, g.align);
            && 0 <= b.x && b.x + aligned <= g.width && IsLevel(s.sky, b.x, aligned, b.y) && b.y + b.h <= g.height
            && (!g.bestFit ==> b.y < y || (b.y == y && b.x <= x))
            && (g.bestFit && y + b.h <= g.height ==>
                  s.sky != [] &&
                  var here, there := Area(s.sky, b.x, b.x + aligned, b.y), Area(s.sky, x, x + aligned, y);
                  b.y < y || (b.y == y && (here < there || (here == there && b.x <= x))))
  {
    hide IsLevel, IsSpot, Place, Area;
    if g.bestFit {
      assert s.sky != [];
      assert Covers(s.sky, x, RoundUp(b.w, g.align), b.h, g.height, true,
                    SpotAt(s.sky, b.x, RoundUp(b.w, g.align), b.y));
    }
  }

  /**
   * Column by column: over the box the skyline is its upper edge, elsewhere it is as before. A box aligned with a point
   * to its right may block some columns more, up to that point, but none beyond its rounded width.
   */
  lemma PlacedColumns(g: Setting, s: Shelf, s': Shelf, b: Box) returns (end: int)
    requires 0 < g.align && IsSky(s.sky, g.width, g.height) && Places(g, s, s', b)
    ensures b.x + b.w <= end <= b.x + RoundUp(b.w, g.align)
    ensures end == b.x + b.w || exists k :: 0 <= k < |s.sky| && s.sky[k].x == end
    ensures forall column, y | 0 <= column < g.width :: IsLevel(s'.sky, column, 1, y) <==>
              if b.x <= column < end then y == b.y + b.h else IsLevel(s.sky, column, 1, y)
  {
    hide IsSky, IsLevel, Place, IsSpot, IsBottomLeft, IsBestFit;
    var aligned := RoundUp(b.w, g.align);
    var i := ChosenSpot(g, s, s', b);
    SpotStart(s.sky, i, b.x, b.w, aligned, g.width, g.height);
    LevelInRange(s.sky, g.width, g.height, b.x, aligned, b.y);
    TopEndIs(s.sky, i, b.x, b.w, aligned, g.width);
    end := TopEnd(s.sky, i, b.x, b.w);
    forall column, y | 0 <= column < g.width
      ensures IsLevel(s'.sky, column, 1, y) <==>
              if b.x <= column < end then y == b.y + b.h else IsLevel(s.sky, column, 1, y)
    {
      PlaceMeaning(s.sky, i, b.x, b.w, aligned, b.y + b.h, g.width, g.height, column, y);
    }
  }

  lemma ChosenSpot(g: Setting, s: Shelf, s': Shelf, b: Box) returns (i: nat)
    requires 0 < g.align && Places(g, s, s', b)
    ensures IsSpot(s.sky, i, b.x, b.w, RoundUp(b.w, g.align), g.width)
    ensures i < |s.sky| - 1 && s'.sky == Place(s.sky, i, b.x, b.w, b.y + b.h)
  {
    i :| IsSpot(s.sky, i, b.x, b.w, RoundUp(b.w, g.align), g.width)
         && s'.sky == Place(s.sky, i, b.x, b.w, b.y + b.h);
  }

  lemma TopEndIs(sky: seq<Point>, i: nat, x: int, w: int, aligned: int, width: int)
    requires IsSpot(sky, i, x, w, aligned, width)
    ensures x + w <= TopEnd(sky, i, x, w) <= x + aligned
    ensures TopEnd(sky, i, x, w) == x + w || sky[i + 1].x == TopEnd(sky, i, x, w)
  {
  }

  class Context {
    var width: int
    var height: int
    var align: int
    var bestFit: bool
    var numNodes: nat
    var activeHead: Node?
    var freeHead: Node?
    const extra0: Node
    const extra1: Node
    ghost var active: seq<Node>
    ghost var free: seq<Node>
    /** Everything placed since the target was set up. */
    ghost var boxes: seq<Box>

    ghost predicate Lists()
      reads `activeHead, `freeHead, `active, `free, `numNodes, active, free
    {
      && Linked(activeHead, active) && Linked(freeHead, free)
      && Distinct(active + free)
      && |active| + |free| == numNodes + 2
    }

    /** All nodes, in use or free. */
    ghost function Pool(): set<Node>
      reads `active, `free
    {
      (set n | n in active) + (set n | n in free)
    }

    ghost function Sky(): seq<Point>
      reads `active, active
    {
      SkyOf(active)
    }

    ghost function Config(): Setting
      reads `width, `height, `align, `bestFit
    {
      Setting(width, height, align, bestFit)
    }

    ghost function Now(): Shelf
      reads `active, active, `free
    {
      Shelf(Sky(), |free|)
    }

    ghost predicate Valid()
      reads this, active, free
    {
      && Lists()
      && 0 < width <= SENTINEL_Y && 0 <= height < SENTINEL_Y && 0 < align
      && IsSky(Sky(), width, height)
      && IsPacking(Sky(), boxes, width, height)
      && GroundLast(Sky())
    }

    constructor ()
      ensures fresh(extra0) && fresh(extra1) && extra0 != extra1
    {
      extra0 := new Node();
      extra1 := new Node();
      width, height, align, bestFit, numNodes := 1, 0, 1, false, 0;
      activeHead, freeHead := null, null;
      active, free, boxes := [], [], [];
    }

    method SetupHeuristic(bestFit: bool)
      modifies `bestFit
      ensures this.bestFit == bestFit
    {
      this.bestFit := bestFit;
    }

    method SetupAllowOutOfMem(allow: bool)
      requires numNodes > 0 && width > 0
      modifies `align
      ensures align == if allow then 1 else AlignFor(width, numNodes)
      ensures align > 0
    {
      if allow {
        align := 1;
      } else {
        align := AlignFor(width, numNodes);
      }
    }

    method InitTarget(width: int, height: int, nodes: seq<Node>)
      requires 0 < width <= SENTINEL_Y && 0 <= height < SENTINEL_Y && nodes != []
      requires Distinct([extra0, extra1] + nodes)
      modifies this, extra0, extra1, nodes
      ensures Valid() && boxes == [] && !bestFit
      ensures this.width == width && this.height == height && numNodes == |nodes|
      ensures align == AlignFor(width, |nodes|)
      ensures Now() == Shelf([Point(0, 0), Point(width, SENTINEL_Y)], |nodes|) && free == nodes
    {
      ExtrasApart(extra0, extra1, nodes);
      hide Distinct, IsPacking, IsSky, Linked, SkyOf, AlignFor, Context.Valid, Context.Lists;
      LinkNodes(nodes);
      SetFields(width, height, nodes);
      SetExtras();
      Adopt(nodes);
    }

    method SetFields(width: int, height: int, nodes: seq<Node>)
      requires width > 0 && nodes != []
      modifies this
      ensures !bestFit && freeHead == nodes[0] && activeHead == extra0
      ensures this.width == width && this.height == height && numNodes == |nodes| && align == AlignFor(width, |nodes|)
    {
      bestFit := false;
      freeHead := nodes[0];
      activeHead := extra0;
      this.width := width;
      this.height := height;
      numNodes := |nodes|;
      SetupAllowOutOfMem(false);
    }

    /** The node before node `k`; `null` for the link at the head of the list. */
    ghost function Before(k: nat): Node?
      requires k < |active|
      reads `active
    {
      if k == 0 then null else active[k - 1]
    }

    /** Tries the box with its left edge at every node. */
    method SearchStarts(aligned: int, h: int) returns (fr: FindResult, waste: int, ghost i: nat)
      requires Valid() && 0 < aligned <= width && 0 < h <= height
      ensures !bestFit ==> fr.Found?
      ensures fr.Found? ==> i < |active| - 1 && fr.prev == Before(i) && fr.x == Sky()[i].x && fr.x + aligned <= width
      ensures fr.Found? ==> IsLevel(Sky(), fr.x, aligned, fr.y)
      ensures !bestFit ==> IsBottomLeft(Sky(), aligned, width, fr.x, fr.y)
      ensures bestFit && fr.Found? ==> IsLowestFit(Sky(), aligned, h, width, height, fr.y)
      ensures bestFit && fr.Found? ==> SpotAt(Sky(), fr.x, aligned, fr.y) == Spot(fr.y, waste, fr.x)
      ensures bestFit && fr.Found? ==> StartsCovered(Sky(), aligned, h, width, height, Spot(fr.y, waste, fr.x))
      ensures bestFit && fr.NotFound? ==> NothingFits(Sky(), aligned, h, width, height)
    {
      hide Linked, SkyOf, Distinct, IsPacking, IsLevel, IsBestStart, NoLowerStart, NoBetterStart, StartsCovered;
      hide Covers, Area, IsSky, GroundLast;
      var node: Node?, prev: Node? := activeHead, null;
      var bestY := SENTINEL_Y;
      waste, fr, i := 0x4000_0000, NotFound, 0;
      ghost var g, sky, bestX := 0, Sky(), 0;
      StartsBegin(aligned, h);
      NoStarts(sky, aligned, h, height, Spot(bestY, waste, bestX));
      while node.x + aligned <= width
        invariant g < |active| && node == active[g] && prev == Before(g) && node.x == sky[g].x
        invariant fr.Found? ==> fr.y == bestY && i < g && fr.prev == Before(i)
        invariant fr.Found? ==> fr.x == sky[i].x && fr.x + aligned <= width
        invariant fr.Found? ==> IsLevel(sky, fr.x, aligned, bestY)
        invariant fr.NotFound? ==> bestY == SENTINEL_Y
        invariant !bestFit ==> (fr.Found? <==> g > 0) && (g > 0 ==> IsBestStart(sky, g, aligned, i, bestY))
        invariant bestFit ==> NoLowerStart(sky, g, aligned, h, height, fr.Found?, bestY)
        invariant bestFit && fr.Found? ==> bestY + h <= height
        invariant bestFit && fr.Found? ==> SpotAt(sky, fr.x, aligned, bestY) == Spot(bestY, waste, bestX)
        invariant bestFit ==> NoBetterStart(sky, g, aligned, h, height, fr.Found?, Spot(bestY, waste, bestX))
        invariant fr.Found? ==> bestX == fr.x
        decreases |active| - g
      {
        StartSegment(g, aligned);
        var y, w := FindMinY(node, node.x, aligned, g);
        ghost var was, wasBest := fr, Spot(bestY, waste, bestX);
        LevelInRange(sky, width, height, node.x, aligned, y);
        if !bestFit {
          BestStartStep(sky, g, aligned, i, bestY, y);
          if y < bestY {
            bestY, bestX, fr, i := y, node.x, Found(prev, node.x, y), g;
          }
        } else {
          if y + h <= height {
            if y < bestY || (y == bestY && w < waste) {
              bestY, waste, bestX, fr, i := y, w, node.x, Found(prev, node.x, y), g;
            }
          }
          var wasY := if was.Found? then was.y else SENTINEL_Y;
          NoLowerStartStep(sky, g, aligned, h, height, was.Found?, wasY, y, fr.Found?, bestY);
          if was.Found? { SkyOrder(sky, width, height, g, i); }
          CoversAt(sky, node.x, aligned, h, height, fr.Found?, Spot(bestY, waste, bestX), y);
          BetterStart(sky, g, aligned, h, height, was.Found?, wasBest, fr.Found?, Spot(bestY, waste, bestX));
        }
        prev := node;
        node := node.next;
        g := g + 1;
      }
      if bestFit {
        StartsDecide(sky, width, height, g, aligned, h, fr.Found?, bestY);
        if fr.Found? { StartsCover(sky, g, aligned, h, width, height, Spot(bestY, waste, bestX)); }
      } else {
        assert g > 0 by { StartsBegin(aligned, h); }
        BestStartIsBottomLeft(sky, width, height, g, aligned, i, bestY);
      }
    }

    lemma StartsBegin(aligned: int, h: int)
      requires Valid() && aligned <= width
      ensures activeHead == active[0] && active[0].x == Sky()[0].x == 0 && |active| >= 2 && |Sky()| == |active|
      ensures NoLowerStart(Sky(), 0, aligned, h, height, false, SENTINEL_Y)
    {
    }

    /** A node left of the right edge has a successor, and carries the columns up to it. */
    lemma StartSegment(g: nat, aligned: int)
      requires Valid() && g < |active| && 0 < aligned && active[g].x + aligned <= width
      ensures g < |active| - 1 && |Sky()| == |active| && active[g].next == active[g + 1]
      ensures Sky()[g].x == active[g].x < Sky()[g + 1].x == active[g + 1].x
    {
    }

    /** The first node at which the right edge of the box can be. */
    method FirstRightEdge(aligned: int) returns (tail: Node, ghost t: nat)
      requires Valid() && 0 < aligned <= width
      ensures t < |active| && tail == active[t] && aligned <= tail.x && forall m | 0 <= m < t :: active[m].x < aligned
    {
      hide Linked, SkyOf, Distinct, IsPacking, IsSky;
      StartsBegin(aligned, 0);
      tail, t := activeHead, 0;
      while tail.x < aligned
        invariant t < |active| && tail == active[t] && forall m | 0 <= m < t :: active[m].x < aligned
        decreases |active| - t
      {
        ActiveBefore(t, aligned);
        tail := tail.next;
        t := t + 1;
      }
    }

    /** Moves on to the node that carries column `xpos`. */
    method SegmentUnder(xpos: int, from: Node, before: Node?, ghost k: nat)
      returns (node: Node, prev: Node?, ghost g: nat)
      requires Valid() && k < |active| - 1 && from == active[k] && before == Before(k) && from.x <= xpos < width
      ensures g < |active| - 1 && node == active[g] && prev == Before(g) && node.x <= xpos < active[g + 1].x
    {
      hide Linked, SkyOf, Distinct, IsPacking, IsSky, Context.Valid;
      node, prev, g := from, before, k;
      SegmentBelow(g);
      while node.next.x <= xpos
        invariant g < |active| - 1 && node == active[g] && prev == Before(g)
        invariant node.x <= xpos && node.next == active[g + 1]
        decreases |active| - g
      {
        StartSegment(g + 1, 1);
        prev := node;
        node := node.next;
        g := g + 1;
      }
    }

    /** Best fit also tries the box with its right edge at every node. */
    method SearchRightEdges(aligned: int, h: int, start: FindResult, startWaste: int, ghost starti: nat)
      returns (fr: FindResult, ghost i: nat)
      requires Valid() && 0 < aligned <= width && 0 < h <= height
      requires start.Found? ==> IsCandidate(start, starti, aligned)
      requires start.Found? ==> IsLowestFit(Sky(), aligned, h, width, height, start.y)
      requires start.Found? ==> starti < |active| == |Sky()|
      requires start.Found? ==> SpotAt(Sky(), start.x, aligned, start.y) == Spot(start.y, startWaste, start.x)
      requires start.Found? ==> StartsCovered(Sky(), aligned, h, width, height, Spot(start.y, startWaste, start.x))
      requires start.NotFound? ==> NothingFits(Sky(), aligned, h, width, height)
      ensures fr.Found? ==> IsCandidate(fr, i, aligned) && IsBestFit(Sky(), aligned, h, width, height, fr.x, fr.y)
      ensures fr.NotFound? <==> start.NotFound?
    {
      hide Linked, SkyOf, Distinct, IsPacking, IsLevel, NothingFits, IsSky, IsLowestFit;
      hide NoBetterRight, StartsCovered, Covers, Area, GroundLast;
      hide Context.IsCandidate, Context.Valid, Context.Lists, Context.Sky;
      fr, i := start, starti;
      var waste := startWaste;
      var bestX, bestY := if start.Found? then start.x else 0, if start.Found? then start.y else SENTINEL_Y;
      StartsBegin(aligned, h);
      var tail: Node?, node: Node, prev: Node? := activeHead, activeHead, null;
      ghost var t: nat, g: nat, sky := 0, 0, Sky();
      tail, t := FirstRightEdge(aligned);
      RightBegin(t, aligned, h, start.Found?, Spot(bestY, waste, bestX));
      while tail != null
        invariant t <= |active| && (tail == null <==> t == |active|)
        invariant t < |active| ==> tail == active[t] && aligned <= tail.x
        invariant g < |active| - 1 && node == active[g] && prev == Before(g)
        invariant t < |active| ==> node.x <= tail.x - aligned
        invariant fr.Found? ==> IsCandidate(fr, i, aligned) && IsLowestFit(sky, aligned, h, width, height, fr.y)
        invariant fr.NotFound? <==> start.NotFound?
        invariant fr.Found? ==> i < |sky| && bestX == fr.x && bestY == fr.y
        invariant fr.Found? ==> SpotAt(sky, fr.x, aligned, bestY) == Spot(bestY, waste, bestX)
        invariant |sky| == |active|
        invariant fr.Found? ==> StartsCovered(sky, aligned, h, width, height, Spot(bestY, waste, bestX))
        invariant fr.Found? ==> NoBetterRight(sky, t, aligned, h, height, true, Spot(bestY, waste, bestX))
        decreases |active| - t
      {
        var xpos := tail.x - aligned;
        TailInside(t);
        node, prev, g := SegmentUnder(xpos, node, prev, g);
        SegmentBelow(g);
        var y, w := FindMinY(node, xpos, aligned, g);
        ghost var was := Spot(bestY, waste, bestX);
        if y + h <= height {
          FitAgrees(sky, aligned, h, width, height, xpos, y, start, fr);
          if y <= bestY {
            if y < bestY || w < waste || (w == waste && xpos < bestX) {
              fr, bestX, bestY, waste, i := Found(prev, xpos, y), xpos, y, w, g;
              CandidateRight(t, g, aligned, xpos, y);
            }
          }
        }
        if fr.Found? { RightStep(t, aligned, h, y, w, was, Spot(bestY, waste, bestX)); }
        ActiveStep(t, aligned);
        tail := tail.next;
        t := t + 1;
      }
      if fr.Found? { RightEnds(fr, i, aligned, h, Spot(bestY, waste, bestX)); }
    }

    /** No point left of the first admissible right edge counts. */
    lemma RightBegin(t: nat, aligned: int, h: int, found: bool, best: Spot)
      requires Valid() && t < |active| && forall m | 0 <= m < t :: active[m].x < aligned
      ensures |Sky()| == |active| && NoBetterRight(Sky(), t, aligned, h, height, found, best)
    {
      hide Linked, Distinct, IsPacking, NoBetterRight, IsSky;
      assert forall m | 0 <= m < t :: Sky()[m].x == active[m].x;
      SkipRight(Sky(), t, aligned, h, height, found, best);
    }

    /** One more right edge: the best so far is kept unless the new spot is better. */
    lemma RightStep(t: nat, aligned: int, h: int, y: int, w: int, was: Spot, best: Spot)
      requires Valid() && t < |active| && aligned <= active[t].x && IsLevel(Sky(), active[t].x - aligned, aligned, y)
      requires SpotAt(Sky(), active[t].x - aligned, aligned, y) == Spot(y, w, active[t].x - aligned)
      requires NoBetterRight(Sky(), t, aligned, h, height, true, was)
      requires StartsCovered(Sky(), aligned, h, width, height, was)
      requires NoWorse(best, was) && (y + h <= height ==> NoWorse(best, Spot(y, w, active[t].x - aligned)))
      ensures NoBetterRight(Sky(), t + 1, aligned, h, height, true, best)
      ensures StartsCovered(Sky(), aligned, h, width, height, best)
    {
      hide Linked, Distinct, IsPacking, NoBetterRight, StartsCovered, Covers, SpotAt, IsSky, IsLevel, NoWorse;
      hide GroundLast;
      assert Sky()[t].x == active[t].x;
      CoversAt(Sky(), active[t].x - aligned, aligned, h, height, true, best, y);
      BetterRight(Sky(), t, aligned, h, height, was, best);
      StartsStay(Sky(), aligned, h, width, height, was, best);
    }

    /** When all right edges have been tried. */
    lemma RightEnds(fr: FindResult, i: nat, aligned: int, h: int, best: Spot)
      requires Valid() && 0 < aligned && fr.Found? && IsCandidate(fr, i, aligned)
      requires IsLowestFit(Sky(), aligned, h, width, height, fr.y)
      requires best == SpotAt(Sky(), fr.x, aligned, fr.y)
      requires NoBetterRight(Sky(), |active|, aligned, h, height, true, best)
      requires StartsCovered(Sky(), aligned, h, width, height, best)
      ensures IsBestFit(Sky(), aligned, h, width, height, fr.x, fr.y)
    {
      hide Linked, Distinct, IsPacking, NoBetterRight, StartsCovered, Covers, SpotAt, IsSky, IsLevel, GroundLast;
      hide IsBestFit;
      AlignedIsBest(Sky(), width, height, aligned, h, fr.x, fr.y);
    }

    /** A found spot: its link leads to node `i`, and the box leaves no gap behind that node. */
    ghost predicate IsCandidate(fr: FindResult, i: nat, aligned: int)
      requires fr.Found?
      reads this, active
    {
      && i < |active| - 1 && fr.prev == Before(i)
      && 0 <= fr.x && fr.x + aligned <= width
      && Sky()[i].x <= fr.x < Sky()[i + 1].x && (Sky()[i].x == fr.x || Sky()[i + 1].x <= fr.x + aligned)
      && IsLevel(Sky(), fr.x, aligned, fr.y)
    }

    lemma ActiveBefore(t: nat, aligned: int)
      requires Valid() && t < |active| && aligned <= width && active[t].x < aligned
      ensures t < |active| - 1 && active[t].next == active[t + 1]
    {
    }

    lemma ActiveStep(t: nat, aligned: int)
      requires Valid() && t < |active| && aligned <= active[t].x
      ensures active[t].next == if t + 1 < |active| then active[t + 1] else null
      ensures t + 1 < |active| ==> active[t].x < active[t + 1].x
    {
      ActiveAt(t);
      if t + 1 < |active| { ActiveAt(t + 1); }
    }

    lemma TailInside(t: nat)
      requires Valid() && t < |active|
      ensures active[t].x <= width
    {
    }

    lemma SegmentBelow(g: nat)
      requires Valid() && g < |active| - 1
      ensures |Sky()| == |active| && active[g].next == active[g + 1]
      ensures Sky()[g].x == active[g].x && Sky()[g + 1].x == active[g + 1].x && 0 <= active[g].x
    {
    }

    lemma CandidateRight(t: nat, g: nat, aligned: int, xpos: int, y: int)
      requires Valid() && t < |active| && g < |active| - 1 && 0 < aligned && xpos == active[t].x - aligned
      requires active[g].x <= xpos < active[g + 1].x && IsLevel(Sky(), xpos, aligned, y)
      ensures IsCandidate(Found(Before(g), xpos, y), g, aligned)
    {
      hide IsLevel, IsPacking, Distinct, Linked;
      assert 0 <= Sky()[g].x == active[g].x && Sky()[g + 1].x == active[g + 1].x && Sky()[t].x == active[t].x;
      SkyOrder(Sky(), width, height, g, t);
    }

    /** Moves one node to the front of the free list. */
    method ToFree(n: Node, ghost fr: seq<Node>)
      requires Linked(freeHead, fr) && n !in fr
      modifies `freeHead, n`next
      ensures Linked(freeHead, [n] + fr)
    {
      assert forall k | 0 <= k < |fr| :: fr[k] in fr;
      n.next := freeHead;
      freeHead := n;
      LinkedPush(n, fr);
    }

    /** Moves nodes from `start` on to the free list as long as the next node begins no later than column `end`. */
    method Recycle(start: Node, end: int, ghost act: seq<Node>, ghost sky: seq<Point>, ghost lo: nat,
                   ghost fr: seq<Node>)
      returns (cur: Node, ghost c: nat, ghost fr': seq<Node>)
      requires lo < |act| && act[lo] == start && LinkedFrom(act, lo)
      requires Linked(freeHead, fr) && Distinct(act) && (forall n | n in act :: n !in fr)
      requires |sky| == |act| && forall k {:trigger act[k].x} | 0 <= k < |act| :: act[k].x == sky[k].x
      modifies `freeHead, act`next
      ensures IsCut(sky, lo, end, c) && cur == act[c]
      ensures LinkedFrom(act, c) && forall k | 0 <= k < lo :: act[k].next == old(act[k].next)
      ensures Linked(freeHead, fr') && multiset(fr') == multiset(fr) + multiset(act[lo..c])
      ensures forall k | c <= k < |act| :: act[k] !in fr'
    {
      hide Linked, LinkedFrom, Distinct, SkyOf;
      cur, c, fr' := start, lo, fr;
      assert act[lo..lo] == [];
      NextInList(act, lo);
      while cur.next != null && cur.next.x <= end
        invariant lo <= c < |act| && cur == act[c] && (c > lo ==> sky[c].x <= end)
        invariant LinkedFrom(act, c) && forall k | 0 <= k < lo :: act[k].next == old(act[k].next)
        invariant Linked(freeHead, fr') && multiset(fr') == multiset(fr) + multiset(act[lo..c])
        invariant forall k | c <= k < |act| :: act[k] !in fr'
        invariant cur.next == if c + 1 < |act| then act[c + 1] else null
        decreases |act| - c
      {
        assert act[c + 1].x == sky[c + 1].x;
        MoreFreed(act, lo, c, fr, fr');
        cur, fr' := RecycleOne(cur, act, c, fr');
        c := c + 1;
        NextInList(act, c);
      }
      assert c + 1 < |act| ==> act[c + 1].x == sky[c + 1].x;
    }

    lemma NextInList(act: seq<Node>, c: nat)
      requires c < |act| && LinkedFrom(act, c)
      ensures act[c].next == if c + 1 < |act| then act[c + 1] else null
    {
    }

    method RecycleOne(cur: Node, ghost act: seq<Node>, ghost c: nat, ghost fr: seq<Node>)
      returns (next: Node, ghost fr': seq<Node>)
      requires c + 1 < |act| && cur == act[c] && cur.next != null && LinkedFrom(act, c) && Distinct(act)
      requires Linked(freeHead, fr) && forall k | c <= k < |act| :: act[k] !in fr
      modifies `freeHead, cur`next
      ensures next == act[c + 1] && fr' == [cur] + fr
      ensures LinkedFrom(act, c + 1) && forall k | 0 <= k < c :: act[k].next == old(act[k].next)
      ensures Linked(freeHead, fr') && forall k | c + 1 <= k < |act| :: act[k] !in fr'
    {
      hide Linked, Distinct, SkyOf;
      OthersDiffer(act, c);
      next := cur.next;
      ToFree(cur, fr);
      fr' := [cur] + fr;
    }

    lemma MoreFreed(act: seq<Node>, lo: nat, c: nat, fr: seq<Node>, fr': seq<Node>)
      requires lo <= c < |act| && multiset(fr') == multiset(fr) + multiset(act[lo..c])
      ensures multiset([act[c]] + fr') == multiset(fr) + multiset(act[lo..c + 1])
    {
      assert act[lo..c + 1] == act[lo..c] + [act[c]];
    }

    /** Nodes of `s` before position `lo` are chained from the head of the active list to `n`. */
    ghost predicate PrefixTo(s: seq<Node>, lo: nat, n: Node)
      requires lo <= |s|
      reads this, s
    {
      && activeHead == (if lo == 0 then n else s[0])
      && forall k {:trigger s[k].next} | 0 <= k < lo :: s[k].next == if k + 1 < lo then s[k + 1] else n
    }

    /** Takes the first free node and fills it in. */
    method TakeFree(x: int, top: int, ghost fr: seq<Node>) returns (node: Node)
      requires Lists() && freeHead != null && free == [freeHead] + fr
      modifies `freeHead, freeHead
      ensures node == old(freeHead) && node.x == x && node.y == top && node !in active && node !in fr
      ensures Linked(freeHead, fr) && Linked(activeHead, active) && Distinct(active)
      ensures forall n | n in active :: n !in fr
    {
      hide Distinct;
      FirstFree(fr);
      node := freeHead;
      node.x := x;
      node.y := top;
      freeHead := node.next;
      assert Linked(freeHead, fr) by { LinkedTail(node, fr); }
    }

    lemma ChainAt(i: nat)
      requires Linked(activeHead, active) && i + 1 < |active|
      ensures activeHead == active[0] && active[i].next == active[i + 1] && LinkedFrom(active, 0)
      ensures i > 0 ==> active[i - 1].next == active[i]
    {
    }

    lemma KeptAt(i: nat, x: int)
      requires i < |active|
      ensures Kept(Sky(), i, x) == if active[i].x < x then i + 1 else i
    {
    }

    /** Takes the first free node, fills it in, and hangs it in behind the nodes that start left of it. */
    method InsertNode(prev: Node?, x: int, top: int, ghost i: nat, ghost fr: seq<Node>)
      returns (node: Node, cur: Node, ghost lo: nat)
      requires Lists() && i < |active| - 1 && prev == Before(i) && freeHead != null && free == [freeHead] + fr
      modifies `activeHead, `freeHead, active`next, freeHead
      ensures node == old(freeHead) && node.x == x && node.y == top
      ensures lo == Kept(old(Sky()), i, x) && lo < |active| && cur == active[lo]
      ensures LinkedFrom(active, lo) && PrefixTo(active, lo, node)
      ensures Linked(freeHead, fr)
    {
      hide Linked, Distinct, Kept, Lists, SkyOf, Sky;
      KeptAt(i, x);
      FirstFree(fr);
      node := TakeFree(x, top, fr);
      ChainAt(i);
      OthersDiffer(active, i);
      cur := if prev == null then activeHead else prev.next;
      assert cur == active[i] && cur !in fr && (prev == null || prev !in fr);
      if cur.x < x {
        var next := cur.next;
        cur.next := node;
        cur := next;
        lo := i + 1;
      } else {
        if prev == null {
          activeHead := node;
        } else {
          prev.next := node;
        }
        lo := i;
      }
    }

    lemma FirstFree(fr: seq<Node>)
      requires Lists() && freeHead != null && free == [freeHead] + fr
      ensures freeHead !in active && freeHead !in fr && Distinct(active) && (forall n | n in active :: n !in fr)
      ensures forall i, j | 0 <= i < j < |active| :: active[i] != active[j]
    {
      assert forall k | 0 <= k < |active| :: (active + free)[k] == active[k];
      assert forall k | 0 <= k < |fr| :: (active + free)[|active| + 1 + k] == fr[k];
      assert (active + free)[|active|] == freeHead;
    }

    lemma LinkedSplice(act: seq<Node>, lo: nat, c: nat, n: Node)
      requires lo <= c < |act| && PrefixTo(act, lo, n) && LinkedFrom(act, c) && n.next == act[c]
      ensures Linked(activeHead, act[..lo] + [n] + act[c..])
    {
      var t := act[..lo] + [n] + act[c..];
      forall k | 0 <= k < |t|
        ensures t[k].next == if k + 1 < |t| then t[k + 1] else null
      {
        if k < lo {
          assert t[k] == act[k] && act[k].next == if k + 1 < lo then act[k + 1] else n;
        } else if k > lo {
          assert t[k] == act[c + (k - lo - 1)] && act[c + (k - lo - 1)].next == t[k].next;
        }
      }
    }

    lemma SkyOfActive()
      ensures |Sky()| == |active|
      ensures forall k | 0 <= k < |active| :: Sky()[k].x == active[k].x && Sky()[k].y == active[k].y
    {
    }

    /** Hangs the new node in and frees the nodes it covers. */
    method Cover(prev: Node?, x: int, w: int, top: int, ghost i: nat, ghost fr: seq<Node>, ghost sky: seq<Point>)
      returns (node: Node, cur: Node, ghost lo: nat, ghost c: nat, ghost fr': seq<Node>)
      requires Lists() && i < |active| - 1 && prev == Before(i) && sky == Sky()
      requires freeHead != null && free == [freeHead] + fr
      modifies `activeHead, `freeHead, active`next, freeHead
      ensures node == old(freeHead) && node.x == x && node.y == top && node !in active
      ensures lo == Kept(sky, i, x) && lo < |active| && IsCut(sky, lo, x + w, c)
      ensures PrefixTo(active, lo, node) && LinkedFrom(active, c) && cur == active[c] && node.next == cur && cur !in fr'
      ensures Linked(freeHead, fr') && multiset(fr') == multiset(fr) + multiset(active[lo..c])
    {
      hide Linked, LinkedFrom, SkyOf, Kept, Context.Sky, Context.Lists, Distinct;
      SkyOfActive();
      FirstFree(fr);
      node, cur, lo := InsertNode(prev, x, top, i, fr);
      cur, c, fr' := Recycle(cur, x + w, active, sky, lo, fr);
      assert cur !in fr' && node !in fr' by { NotIn(node, fr, fr', active, lo, c); }
      node.next := cur;
    }

    /**
     * Relinks the active list around a new node with upper edge `top` at column x: nodes that start left of x stay,
     * nodes the new one covers are freed, and the first one left moves up to the right edge of the box.
     */
    method Relink(prev: Node?, x: int, w: int, top: int, ghost i: nat, ghost fr: seq<Node>, ghost sky: seq<Point>)
      returns (node: Node, ghost lo: nat, ghost c: nat, ghost fr': seq<Node>)
      requires Lists() && i < |active| - 1 && prev == Before(i) && sky == Sky()
      requires freeHead != null && free == [freeHead] + fr
      modifies `activeHead, `freeHead, active, freeHead
      ensures node == old(freeHead) && node.x == x && node.y == top
      ensures lo == Kept(sky, i, x) && lo < |active| && IsCut(sky, lo, x + w, c)
      ensures PrefixTo(active, lo, node) && LinkedFrom(active, c) && node.next == active[c]
      ensures forall k | 0 <= k < |active| && k != c :: active[k].x == old(active[k].x)
      ensures active[c].x == Max(old(active[c].x), x + w)
      ensures forall k | 0 <= k < |active| :: active[k].y == old(active[k].y)
      ensures Linked(freeHead, fr') && multiset(fr') == multiset(fr) + multiset(active[lo..c])
    {
      FirstFree(fr);
      hide Linked, SkyOf, Kept, Distinct;
      var cur;
      node, cur, lo, c, fr' := Cover(prev, x, w, top, i, fr, sky);
      if cur.x < x + w {
        cur.x := x + w;
      }
    }

    lemma Spliced(act: seq<Node>, sky: seq<Point>, lo: nat, c: nat, n: Node, x: int, w: int, top: int)
      requires lo <= c < |act| && |sky| == |act| && active == act[..lo] + [n] + act[c..]
      requires n.x == x && n.y == top && act[c].x == Max(sky[c].x, x + w)
      requires forall k | 0 <= k < |act| && k != c :: act[k].x == sky[k].x
      requires forall k | 0 <= k < |act| :: act[k].y == sky[k].y
      ensures Sky() == sky[..lo] + [Point(x, top), Point(Max(sky[c].x, x + w), sky[c].y)] + sky[c + 1..]
    {
    }

    method Splice(prev: Node?, x: int, w: int, top: int, ghost i: nat)
      requires Lists() && i < |active| - 1 && prev == Before(i) && freeHead != null && IsSky(Sky(), width, height)
      modifies `activeHead, `freeHead, `active, `free, active, free
      ensures Lists()
      ensures Sky() == Place(old(Sky()), i, x, w, top)
      ensures Pool() == old(Pool())
    {
      ghost var fr, sky := free[1..], Sky();
      assert free == [freeHead] + fr && freeHead in free;
      var node;
      ghost var lo, c, fr';
      node, lo, c, fr' := Relink(prev, x, w, top, i, fr, sky);
      Resettle(node, lo, c, fr, fr', sky, x, w, top);
      PlaceIs(sky, width, height, i, x, w, top, c);
    }

    /** The lists as they are after relinking, named anew. */
    ghost method Resettle(node: Node, lo: nat, c: nat, fr: seq<Node>, fr': seq<Node>, sky: seq<Point>, x: int, w: int,
                          top: int)
      requires lo <= c < |active| && |sky| == |active| && free == [node] + fr
      requires node.x == x && node.y == top && active[c].x == Max(sky[c].x, x + w)
      requires forall k | 0 <= k < |active| && k != c :: active[k].x == sky[k].x
      requires forall k | 0 <= k < |active| :: active[k].y == sky[k].y
      requires PrefixTo(active, lo, node) && LinkedFrom(active, c) && node.next == active[c]
      requires Linked(freeHead, fr') && multiset(fr') == multiset(fr) + multiset(active[lo..c])
      requires Distinct(active + free) && |active| + |free| == numNodes + 2
      modifies `active, `free
      ensures Lists()
      ensures Sky() == sky[..lo] + [Point(x, top), Point(Max(sky[c].x, x + w), sky[c].y)] + sky[c + 1..]
      ensures Pool() == old(Pool())
    {
      hide Linked, LinkedFrom, Distinct, Context.PrefixTo, SkyOf;
      ghost var act := active;
      LinkedSplice(act, lo, c, node);
      Renamed(act, lo, c, node, fr, fr');
      active, free := act[..lo] + [node] + act[c..], fr';
      Spliced(act, sky, lo, c, node, x, w, top);
    }

    /** The best spot by the current heuristic for a box of this size, its width rounded up to the alignment. */
    method FindBestPos(w: int, h: int) returns (fr: FindResult, ghost i: nat)
      requires Valid() && 0 < w && 0 < h
      ensures var aligned := RoundUp(w, align);
              && (fr.Found? ==> IsCandidate(fr, i, aligned))
              && (fr.Found? && !bestFit ==> IsBottomLeft(Sky(), aligned, width, fr.x, fr.y))
              && (fr.Found? && bestFit ==> IsBestFit(Sky(), aligned, h, width, height, fr.x, fr.y))
              && (fr.NotFound? ==> aligned > width || h > height || NothingFits(Sky(), aligned, h, width, height))
    {
      hide IsBestFit, StartsCovered;
      hide IsSky, IsPacking, Distinct, Linked, SkyOf, IsLevel, IsBottomLeft, IsLowestFit, NothingFits;
      var aligned := RoundUp(w, align);
      i := 0;
      if aligned > width || h > height {
        return NotFound, 0;
      }
      var waste;
      fr, waste, i := SearchStarts(aligned, h);
      if fr.Found? { CandidateLeft(fr, i, aligned); }
      if bestFit {
        fr, i := SearchRightEdges(aligned, h, fr, waste, i);
      }
    }

    lemma CandidateLeft(fr: FindResult, i: nat, aligned: int)
      requires Valid() && 0 < aligned && fr.Found? && i < |active| - 1 && fr.prev == Before(i)
      requires fr.x == Sky()[i].x && fr.x + aligned <= width && IsLevel(Sky(), fr.x, aligned, fr.y)
      ensures IsCandidate(fr, i, aligned)
    {
      hide IsLevel, IsPacking;
    }

    /**
     * Places a box, or reports that it cannot: the box is too large, the nodes have run out, or no position fits.
     * Everything placed before stays placed, and all boxes together are still a packing of the target.
     */
    method PackRectangle(w: int, h: int) returns (fr: FindResult)
      requires Valid() && 0 < w && 0 < h
      modifies `activeHead, `freeHead, `active, `free, `boxes, Pool()
      ensures Valid()
      ensures Pool() == old(Pool())
      ensures fr.Found? <==> CanPlace(Config(), old(Now()), w, h)
      ensures fr.Found? <==>
                var aligned := RoundUp(w, align);
                && aligned <= width && h <= height && old(free) != []
                && exists x, y :: 0 <= x <= width - aligned && IsLevel(old(Sky()), x, aligned, y) && y + h <= height
      ensures boxes == old(boxes) + if fr.Found? then [Box(fr.x, fr.y, w, h)] else []
      ensures fr.NotFound? ==> Now() == old(Now()) && active == old(active) && free == old(free)
      ensures fr.Found? ==> Places(Config(), old(Now()), Now(), Box(fr.x, fr.y, w, h))
    {
      hide IsSky, IsPacking, Distinct, Linked, SkyOf, IsLevel, IsBottomLeft, IsLowestFit, NothingFits, Place, IsSpot;
      hide IsBestFit;
      hide Context.IsCandidate, Context.Valid, Context.Lists, Context.Pool, Context.Sky, Context.Before, Places;
      ghost var i;
      fr, i := FindBestPos(w, h);
      CanPlaceIff(Config(), Now(), w, h);
      ghost var aligned, was := RoundUp(w, align), Now();
      SearchDecides(fr, i, w, h);
      if fr.NotFound? || fr.y + h > height || freeHead == null {
        return NotFound;
      }
      Counts();
      Put(fr.prev, Box(fr.x, fr.y, w, h), aligned, i);
      Counts();
      PlacedAt(was, Now(), Box(fr.x, fr.y, w, h), i);
    }

    lemma Counts()
      requires Valid()
      ensures |Sky()| + |free| == numNodes + 2
    {
    }

    lemma PlacedAt(s: Shelf, s': Shelf, b: Box, i: nat)
      requires 0 < b.w && 0 < b.h && 0 < align && s.free > 0 && b.y + b.h <= height
      requires |s'.sky| + s'.free == |s.sky| + s.free
      requires var aligned := RoundUp(b.w, align);
               && IsLevel(s.sky, b.x, aligned, b.y)
               && (!bestFit ==> IsBottomLeft(s.sky, aligned, width, b.x, b.y))
               && (bestFit ==> IsBestFit(s.sky, aligned, b.h, width, height, b.x, b.y))
               && IsSpot(s.sky, i, b.x, b.w, aligned, width) && s'.sky == Place(s.sky, i, b.x, b.w, b.y + b.h)
      ensures Places(Config(), s, s', b)
    {
      hide IsLevel, IsBottomLeft, IsBestFit, IsSpot;
    }

    /** Puts a box on a spot found for it. */
    method Put(prev: Node?, b: Box, ghost aligned: int, ghost i: nat)
      requires Valid() && i < |active| - 1 && prev == Before(i) && freeHead != null
      requires IsSpot(Sky(), i, b.x, b.w, aligned, width) && IsLevel(Sky(), b.x, aligned, b.y)
      requires 0 < b.h && b.y + b.h <= height && (b.x == Sky()[i].x || Sky()[i].y > 0)
      modifies `activeHead, `freeHead, `active, `free, `boxes, Pool()
      ensures Valid() && boxes == old(boxes) + [b]
      ensures Sky() == Place(old(Sky()), i, b.x, b.w, b.y + b.h)
      ensures Pool() == old(Pool())
    {
      hide IsSky, IsPacking, SkyOf, IsLevel, Place, Context.Lists, Linked, Distinct, IsSpot, Context.Sky;
      hide Context.Before, GroundLast;
      PlaceKeepsPacking(Sky(), boxes, i, b, aligned, width, height);
      LevelInRange(Sky(), width, height, b.x, aligned, b.y);
      PlaceKeepsGround(Sky(), i, b.x, b.w, aligned, b.y + b.h, width, height);
      Splice(prev, b.x, b.w, b.y + b.h, i);
      boxes := boxes + [b];
    }

    /** What the outcome of the search says about the box. */
    lemma SearchDecides(fr: FindResult, i: nat, w: int, h: int)
      requires Valid() && 0 < w && 0 < h
      requires var aligned := RoundUp(w, align);
               && (fr.Found? ==> IsCandidate(fr, i, aligned))
               && (fr.Found? && !bestFit ==> IsBottomLeft(Sky(), aligned, width, fr.x, fr.y))
               && (fr.Found? && bestFit ==> IsBestFit(Sky(), aligned, h, width, height, fr.x, fr.y))
               && (fr.NotFound? ==> aligned > width || h > height || NothingFits(Sky(), aligned, h, width, height))
      ensures freeHead == null <==> free == []
      ensures var aligned := RoundUp(w, align);
              && (fr.Found? && fr.y + h > height ==> NothingFits(Sky(), aligned, h, width, height))
              && (fr.Found? && fr.y + h <= height ==>
                    && aligned <= width && h <= height && !NothingFits(Sky(), aligned, h, width, height)
                    && i < |active| - 1 && fr.prev == Before(i)
                    && IsSpot(Sky(), i, fr.x, w, aligned, width) && IsLevel(Sky(), fr.x, aligned, fr.y)
                    && (fr.x == Sky()[i].x || Sky()[i].y > 0))
    {
      hide IsBottomLeft, IsBestFit, IsLowestFit, NothingFits, IsPacking, IsSky, IsLevel, GroundLast, Distinct, SkyOf;
      var aligned := RoundUp(w, align);
      if fr.Found? {
        LevelInRange(Sky(), width, height, fr.x, aligned, fr.y);
        if bestFit {
          BestFitIsLowest(Sky(), aligned, h, width, height, fr.x, fr.y);
          BestFitNotInside(Sky(), width, height, i, aligned, h, fr.x, fr.y);
        } else {
          BottomLeftDecides(Sky(), aligned, h, width, height, fr.x, fr.y);
          BottomLeftAtPoint(Sky(), width, height, i, aligned, fr.x, fr.y);
          if fr.y + h <= height { SomethingFits(Sky(), aligned, h, width, height, fr.x, fr.y); }
        }
      }
    }

    ghost method Adopt(nodes: seq<Node>)
      requires Linked(activeHead, [extra0, extra1]) && Linked(freeHead, nodes) && Distinct([extra0, extra1] + nodes)
      requires SkyOf([extra0, extra1]) == [Point(0, 0), Point(width, SENTINEL_Y)]
      requires 0 < width <= SENTINEL_Y && 0 <= height < SENTINEL_Y && 0 < align && numNodes == |nodes|
      modifies `active, `free, `boxes
      ensures Valid() && boxes == [] && free == nodes && active == [extra0, extra1]
    {
      hide Distinct, IsPacking, IsSky, Linked, SkyOf;
      active, free, boxes := [extra0, extra1], nodes, [];
      FreshSky(width, height);
    }

    /** Node 0 is the full width, node 1 is the sentinel. */
    method SetExtras()
      requires extra0 != extra1
      modifies extra0, extra1
      ensures Linked(extra0, [extra0, extra1])
      ensures SkyOf([extra0, extra1]) == [Point(0, 0), Point(width, SENTINEL_Y)]
    {
      extra0.x, extra0.y, extra0.next := 0, 0, extra1;
      extra1.x, extra1.y, extra1.next := width, SENTINEL_Y, null;
    }

    /** Node `k` of the active list, its point and its link. */
    lemma ActiveAt(k: nat)
      requires Lists() && k < |active|
      ensures |Sky()| == |active| && Sky()[k] == Point(active[k].x, active[k].y)
      ensures active[k].next == if k + 1 < |active| then active[k + 1] else null
    {
    }

    /** A node left of column `end` carries columns up to its successor. */
    lemma NodeUnder(g: nat, end: int)
      requires Valid() && g < |active| && active[g].x < end <= width
      ensures g < |active| - 1 && |Sky()| == |active| && active[g].next == active[g + 1]
      ensures Sky()[g] == Point(active[g].x, active[g].y) && Sky()[g + 1].x == active[g + 1].x
      ensures Sky()[g].x < Sky()[g + 1].x && 0 <= Sky()[g].y
    {
    }

    /** The level over `w` columns from x0, where node `k` carries column x0, and the waste. */
    method FindMinY(first: Node, x0: int, w: int, ghost k: nat) returns (minY: int, waste: int)
      requires Valid() && k < |active| - 1 && active[k] == first
      requires Sky()[k].x <= x0 < Sky()[k + 1].x && 0 < w && x0 + w <= width
      ensures IsLevel(Sky(), x0, w, minY)
      ensures waste == Area(Sky(), x0, x0 + w, minY)
    {
      hide Distinct, IsPacking, Linked, SkyOf, IsSky, IsLevel, GroundLast, AreaTo;
      var node: Node? := first;
      var x1 := x0 + w;
      var visited := 0;
      minY, waste := 0, 0;
      ghost var g, sky := k, Sky();
      NodeUnder(k, x1);
      WasteStarts(sky, width, height, k, x0, x1);
      while node.x < x1
        invariant k <= g < |active| && node == active[g] && node.x == sky[g].x
        invariant (g == k || sky[g - 1].x < x1) && sky[k].x <= sky[g].x && (g == k ==> minY == 0)
        invariant forall i | k <= i < g :: sky[i].y <= minY
        invariant minY >= 0 && (minY == 0 || exists i :: k <= i < g && sky[i].y == minY)
        invariant node.x < x1 ==> visited == Max(node.x, x0) - x0
        invariant waste == AreaTo(sky, g, x0, x1, minY)
        decreases |active| - g
      {
        NodeUnder(g, x1);
        if node.y > minY {
          RaiseStep(sky, width, height, k, g, x0, x1, minY);
          waste := waste + visited * (node.y - minY);
          minY := node.y;
          visited := visited + node.next.x - if node.x < x0 then x0 else node.x;
        } else {
          LowerStep(sky, width, height, k, g, x0, x1, minY);
          var under := node.next.x - node.x;
          if under + visited > w {
            under := w - visited;
          }
          waste := waste + under * (minY - node.y);
          visited := visited + under;
        }
        node := node.next;
        g := g + 1;
      }
      LevelFound(sky, width, height, k, g, x0, w, minY);
      AreaBeyond(sky, width, height, g, x0, x1, minY);
    }
  }

  lemma FreshSky(width: int, height: int)
    requires 0 < width && 0 <= height
    ensures IsSky([Point(0, 0), Point(width, SENTINEL_Y)], width, height)
    ensures IsPacking([Point(0, 0), Point(width, SENTINEL_Y)], [], width, height)
    ensures GroundLast([Point(0, 0), Point(width, SENTINEL_Y)])
  {
  }

  lemma ExtrasApart(a: Node, b: Node, nodes: seq<Node>)
    requires Distinct([a, b] + nodes)
    ensures a != b && a !in nodes && b !in nodes && Distinct(nodes)
  {
    var all := [a, b] + nodes;
    assert all[0] == a && all[1] == b && forall i | 0 <= i < |nodes| :: all[i + 2] == nodes[i];
  }

  /** A position that fits is no lower than the lowest fit, and there is none if nothing fits. */
  lemma FitAgrees(sky: seq<Point>, aligned: int, h: int, width: int, height: int, x: int, y: int, start: FindResult,
                  fr: FindResult)
    requires 0 <= x <= width - aligned && IsLevel(sky, x, aligned, y) && y + h <= height
    requires start.NotFound? ==> NothingFits(sky, aligned, h, width, height)
    requires fr.Found? ==> IsLowestFit(sky, aligned, h, width, height, fr.y)
    requires fr.NotFound? <==> start.NotFound?
    ensures fr.Found? && fr.y <= y
  {
  }

  /** Chains the caller's nodes into the free list. */
  method LinkNodes(nodes: seq<Node>)
    requires nodes != [] && Distinct(nodes)
    modifies nodes
    ensures Linked(nodes[0], nodes)
  {
    var i := 0;
    while i < |nodes| - 1
      invariant 0 <= i < |nodes|
      invariant forall k | 0 <= k < i :: nodes[k].next == nodes[k + 1]
    {
      nodes[i].next := nodes[i + 1];
      i := i + 1;
    }
    nodes[i].next := null;
  }
}
