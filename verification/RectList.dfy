/** Packing a whole array of rectangles: sorted by height, placed one by one, put back into the caller's order. */
module RectList {
  import opened Skyline
  import opened RectPack

  const MAXVAL := 0x7FFF_FFFF

  datatype Rect = Rect(id: int, w: int, h: int, x: int, y: int, wasPacked: int)

  datatype Order = ByHeight | ByKey

  /** The two comparison functions handed to the sort: taller (then wider) first, and by remembered position. */
  function Compare(order: Order, p: Rect, q: Rect): int {
    match order
    case ByHeight =>
      if p.h > q.h then -1 else if p.h < q.h then 1
      else if p.w > q.w then -1 else if p.w < q.w then 1 else 0
    case ByKey =>
      if p.wasPacked < q.wasPacked then -1 else if p.wasPacked > q.wasPacked then 1 else 0
  }

  ghost predicate IsPermutation(p: seq<nat>, n: nat) {
    && |p| == n
    && (forall i | 0 <= i < n :: p[i] < n)
    && (forall i, j | 0 <= i < j < n :: p[i] != p[j])
  }

  ghost predicate IsSorted(order: Order, s: seq<Rect>) {
    forall i, j | 0 <= i < j < |s| :: Compare(order, s[i], s[j]) <= 0
  }

  ghost predicate IsRearranged(s: seq<Rect>, t: seq<Rect>, p: seq<nat>) {
    |s| == |t| && IsPermutation(p, |s|) && forall i | 0 <= i < |s| :: t[i] == s[p[i]]
  }

  /** A sort by insertion; callers rely only on its contract, which any sort meets. */
  method Sort(a: array<Rect>, order: Order) returns (ghost p: seq<nat>)
    modifies a
    ensures IsSorted(order, a[..]) && IsRearranged(old(a[..]), a[..], p)
  {
    p := seq(a.Length, i => i);
    for i := 0 to a.Length
      invariant IsSorted(order, a[..i]) && IsRearranged(old(a[..]), a[..], p)
    {
      p := Insert(a, order, i, p, old(a[..]));
    }
    assert a[..a.Length] == a[..];
  }

  /** Sorted up to `n` except for the element at `hole`, which belongs before everything behind it. */
  ghost predicate SortedButFor(order: Order, s: seq<Rect>, n: nat, hole: int) {
    && 0 <= hole < n <= |s|
    && (forall i, j | 0 <= i < j < n && j != hole :: Compare(order, s[i], s[j]) <= 0)
  }

  function Swap<T>(s: seq<T>, j: nat): seq<T>
    requires 0 < j < |s|
  {
    s[j - 1 := s[j]][j := s[j - 1]]
  }

  lemma SwapRearranged(s: seq<Rect>, t: seq<Rect>, p: seq<nat>, j: nat)
    requires IsRearranged(s, t, p) && 0 < j < |t|
    ensures IsRearranged(s, Swap(t, j), Swap(p, j))
  {
  }

  lemma SwapSortedButFor(order: Order, s: seq<Rect>, n: nat, j: nat)
    requires SortedButFor(order, s, n, j) && j > 0 && Compare(order, s[j - 1], s[j]) > 0
    ensures SortedButFor(order, Swap(s, j), n, j - 1)
  {
  }

  lemma SettledIsSorted(order: Order, s: seq<Rect>, n: nat, j: nat)
    requires SortedButFor(order, s, n, j) && (j == 0 || Compare(order, s[j - 1], s[j]) <= 0)
    ensures IsSorted(order, s[..n])
  {
    forall i, k | 0 <= i < k < n
      ensures Compare(order, s[i], s[k]) <= 0
    {
      if k == j && i < j - 1 { assert Compare(order, s[i], s[j - 1]) <= 0; }
    }
  }

  /** Moves element `i` down to its place among the sorted elements before it. */
  method Insert(a: array<Rect>, order: Order, i: nat, ghost p0: seq<nat>, ghost s: seq<Rect>)
    returns (ghost p: seq<nat>)
    requires i < a.Length && IsSorted(order, a[..i]) && IsRearranged(s, a[..], p0)
    modifies a
    ensures IsSorted(order, a[..i + 1]) && IsRearranged(s, a[..], p)
  {
    p := p0;
    var j := i;
    assert SortedButFor(order, a[..], i + 1, i) by {
      assert forall k | 0 <= k < i :: a[..i][k] == a[..][k];
    }
    hide IsRearranged, SortedButFor, IsSorted, IsPermutation;
    while j > 0 && Compare(order, a[j - 1], a[j]) > 0
      invariant j <= i && |p| == a.Length && IsRearranged(s, a[..], p)
      invariant SortedButFor(order, a[..], i + 1, j)
    {
      SwapRearranged(s, a[..], p, j);
      SwapSortedButFor(order, a[..], i + 1, j);
      ghost var t := a[..];
      a[j - 1], a[j] := a[j], a[j - 1];
      assert a[..] == Swap(t, j);
      p := Swap(p, j);
      j := j - 1;
    }
    SettledIsSorted(order, a[..], i + 1, j);
    assert a[..][..i + 1] == a[..i + 1];
  }

  // ---------- Packing ----------

  function BoxOf(r: Rect): Box { Box(r.x, r.y, r.w, r.h) }

  predicate Empty(r: Rect) { r.w == 0 || r.h == 0 }

  predicate Rejected(r: Rect) { r.x == MAXVAL && r.y == MAXVAL }

  /** Same identity and size. */
  predicate SameRect(r: Rect, o: Rect) { r.id == o.id && r.w == o.w && r.h == o.h }

  /** What the packer did with `r` when it was its turn. */
  ghost predicate Turn(g: Setting, s: Shelf, r: Rect, s': Shelf) {
    && r.w >= 0 && r.h >= 0 && 0 < g.align
    && if Empty(r) then r.x == 0 && r.y == 0 && s' == s
       else if Rejected(r) then !CanPlace(g, s, r.w, r.h) && s' == s
       else CanPlace(g, s, r.w, r.h) && Places(g, s, s', BoxOf(r))
  }

  /** All rectangles of `order`, one after the other, from shelf to shelf. */
  ghost predicate Turns(g: Setting, shelves: seq<Shelf>, order: seq<Rect>) {
    |shelves| == |order| + 1 && forall k :: 0 <= k < |order| ==> Turn(g, shelves[k], order[k], shelves[k + 1])
  }

  /** The boxes of the rectangles that were placed. */
  function NewBoxes(rs: seq<Rect>): seq<Box> {
    if rs == [] then []
    else
      var last := rs[|rs| - 1];
      NewBoxes(rs[..|rs| - 1]) + if Empty(last) || Rejected(last) then [] else [BoxOf(last)]
  }

  /** Each rectangle remembers its place in `s0`, no two the same. */
  ghost predicate Keyed(s: seq<Rect>, s0: seq<Rect>) {
    && |s| == |s0|
    && (forall k | 0 <= k < |s| :: 0 <= s[k].wasPacked < |s0| && SameRect(s[k], s0[s[k].wasPacked]))
    && (forall j, k | 0 <= j < k < |s| :: s[j].wasPacked != s[k].wasPacked)
  }

  lemma KeyedRearranged(s: seq<Rect>, t: seq<Rect>, p: seq<nat>, s0: seq<Rect>)
    requires Keyed(s, s0) && IsRearranged(s, t, p)
    ensures Keyed(t, s0)
  {
  }

  /** Sorting by the remembered place restores the order. */
  lemma {:induction false} KeysInOrder(s: seq<Rect>, s0: seq<Rect>, k: nat)
    requires Keyed(s, s0) && IsSorted(ByKey, s) && k < |s|
    ensures k <= s[k].wasPacked
  {
    if k > 0 {
      KeysInOrder(s, s0, k - 1);
      assert Compare(ByKey, s[k - 1], s[k]) <= 0;
    }
  }

  lemma {:induction false} KeysBounded(s: seq<Rect>, s0: seq<Rect>, k: nat)
    requires Keyed(s, s0) && IsSorted(ByKey, s) && k < |s|
    ensures s[k].wasPacked <= k
    decreases |s| - k
  {
    if k + 1 < |s| {
      KeysBounded(s, s0, k + 1);
      assert Compare(ByKey, s[k], s[k + 1]) <= 0;
    }
  }

  lemma OrderRestored(s: seq<Rect>, s0: seq<Rect>)
    requires Keyed(s, s0) && IsSorted(ByKey, s)
    ensures |s| == |s0| && forall k | 0 <= k < |s| :: s[k].wasPacked == k && SameRect(s[k], s0[k])
  {
    forall k | 0 <= k < |s|
      ensures s[k].wasPacked == k
    {
      KeysInOrder(s, s0, k);
      KeysBounded(s, s0, k);
    }
  }

  /** Setting the position of element `i` keeps the keys. */
  lemma PositionKeepsKeys(s: seq<Rect>, s0: seq<Rect>, i: nat, x: int, y: int)
    requires Keyed(s, s0) && i < |s|
    ensures Keyed(s[i := s[i].(x := x, y := y)], s0)
  {
  }

  method RememberOrder(rects: array<Rect>)
    modifies rects
    ensures Keyed(rects[..], old(rects[..]))
  {
    for i := 0 to rects.Length
      invariant forall k | 0 <= k < i :: rects[k] == old(rects[k]).(wasPacked := k)
      invariant forall k | i <= k < rects.Length :: rects[k] == old(rects[k])
    {
      rects[i] := rects[i].(wasPacked := i);
    }
  }

  /** The flag that replaces the remembered position. */
  function Flagged(r: Rect): Rect {
    r.(wasPacked := if Rejected(r) then 0 else 1)
  }

  function AllFlagged(rs: seq<Rect>): seq<Rect> {
    seq(|rs|, i requires 0 <= i < |rs| => Flagged(rs[i]))
  }

  /** Turns the remembered positions into flags. */
  method SetFlags(rects: array<Rect>) returns (all: bool)
    modifies rects
    ensures rects[..] == AllFlagged(old(rects[..]))
    ensures all <==> forall k | 0 <= k < rects.Length :: rects[k].wasPacked == 1
  {
    all := true;
    for i := 0 to rects.Length
      invariant forall k | 0 <= k < i :: rects[k] == Flagged(old(rects[k]))
      invariant forall k | i <= k < rects.Length :: rects[k] == old(rects[k])
      invariant all <==> forall k | 0 <= k < i :: rects[k].wasPacked == 1
    {
      rects[i] := rects[i].(wasPacked := if Rejected(rects[i]) then 0 else 1);
      if rects[i].wasPacked == 0 {
        all := false;
      }
    }
  }

  /** Places one rectangle, or rejects it. */
  method PlaceOne(c: Context, r: Rect) returns (r': Rect)
    requires c.Valid() && r.w >= 0 && r.h >= 0
    modifies c`activeHead, c`freeHead, c`active, c`free, c`boxes, c.Pool()
    ensures c.Valid() && c.Pool() == old(c.Pool())
    ensures r' == r.(x := r'.x, y := r'.y)
    ensures Turn(c.Config(), old(c.Now()), r', c.Now())
    ensures c.boxes == old(c.boxes) + if Empty(r') || Rejected(r') then [] else [BoxOf(r')]
  {
    hide IsSky, IsPacking, NothingFits, SkyOf, RoundUp, CanPlace, Places;
    hide Context.Valid, Context.Sky, Context.Lists, Context.Pool, Context.Now;
    AlignPositive(c);
    if r.w == 0 || r.h == 0 {
      return r.(x := 0, y := 0);
    }
    var fr := c.PackRectangle(r.w, r.h);
    if fr.NotFound? {
      return r.(x := MAXVAL, y := MAXVAL);
    }
    r' := r.(x := fr.x, y := fr.y);
    NewestInside(c, BoxOf(r'));
  }

  lemma AlignPositive(c: Context)
    requires c.Valid()
    ensures c.align > 0
  {
  }

  lemma NewestInside(c: Context, b: Box)
    requires c.Valid() && c.boxes != [] && c.boxes[|c.boxes| - 1] == b
    ensures b.x < MAXVAL
  {
  }

  lemma TurnsSnoc(g: Setting, shelves: seq<Shelf>, order: seq<Rect>, r: Rect, s': Shelf)
    requires Turns(g, shelves, order) && Turn(g, shelves[|order|], r, s')
    ensures Turns(g, shelves + [s'], order + [r])
  {
    hide Turn;
  }

  lemma NewBoxesSnoc(rs: seq<Rect>, r: Rect)
    ensures NewBoxes(rs + [r]) == NewBoxes(rs) + if Empty(r) || Rejected(r) then [] else [BoxOf(r)]
  {
    assert (rs + [r])[..|rs|] == rs;
  }

  /** Places the rectangles in the order they are in. */
  method PlaceAll(c: Context, rects: array<Rect>, ghost s0: seq<Rect>) returns (ghost shelves: seq<Shelf>)
    requires c.Valid() && Keyed(rects[..], s0) && forall k | 0 <= k < rects.Length :: rects[k].w >= 0 && rects[k].h >= 0
    modifies c`activeHead, c`freeHead, c`active, c`free, c`boxes, c.Pool(), rects
    ensures c.Valid() && c.Pool() == old(c.Pool())
    ensures Keyed(rects[..], s0) && forall k | 0 <= k < rects.Length :: SameRect(rects[k], old(rects[k]))
    ensures Turns(c.Config(), shelves, rects[..]) && shelves[0] == old(c.Now()) && shelves[rects.Length] == c.Now()
    ensures c.boxes == old(c.boxes) + NewBoxes(rects[..])
  {
    hide Keyed, Turn, Turns, NewBoxes, Empty, Rejected, BoxOf, IsSky, IsPacking, SkyOf;
    hide Context.Valid, Context.Sky, Context.Lists, Context.Pool, Context.Now;
    shelves := [c.Now()];
    NoTurns(c.Config(), shelves);
    assert rects[..0] == [];
    for i := 0 to rects.Length
      invariant c.Valid() && c.Pool() == old(c.Pool())
      invariant Keyed(rects[..], s0) && forall k | 0 <= k < rects.Length :: SameRect(rects[k], old(rects[k]))
      invariant forall k | 0 <= k < rects.Length :: rects[k].w >= 0 && rects[k].h >= 0
      invariant |shelves| == i + 1 && shelves[0] == old(c.Now()) && shelves[i] == c.Now()
      invariant Turns(c.Config(), shelves, rects[..i])
      invariant c.boxes == old(c.boxes) + NewBoxes(rects[..i])
    {
      ghost var s, done := rects[..], rects[..i];
      var r := PlaceOne(c, rects[i]);
      TurnsSnoc(c.Config(), shelves, done, r, c.Now());
      NewBoxesSnoc(done, r);
      PositionKeepsKeys(s, s0, i, r.x, r.y);
      shelves := shelves + [c.Now()];
      rects[i] := r;
      assert rects[..] == s[i := r] && rects[..i + 1] == done + [r];
    }
    assert rects[..rects.Length] == rects[..];
  }

  lemma NoTurns(g: Setting, shelves: seq<Shelf>)
    requires |shelves| == 1
    ensures Turns(g, shelves, []) && NewBoxes([]) == []
  {
  }

  lemma KeyedSizes(s: seq<Rect>, s0: seq<Rect>)
    requires Keyed(s, s0) && forall k | 0 <= k < |s0| :: s0[k].w >= 0 && s0[k].h >= 0
    ensures forall k | 0 <= k < |s| :: s[k].w >= 0 && s[k].h >= 0
  {
  }

  lemma SizesSorted(s: seq<Rect>, t: seq<Rect>)
    requires IsSorted(ByHeight, s) && |s| == |t| && forall k | 0 <= k < |s| :: SameRect(t[k], s[k])
    ensures IsSorted(ByHeight, t)
  {
    forall i, j | 0 <= i < j < |t|
      ensures Compare(ByHeight, t[i], t[j]) <= 0
    {
      assert Compare(ByHeight, s[i], s[j]) <= 0;
    }
  }

  lemma TallestFirst(s: seq<Rect>)
    requires IsSorted(ByHeight, s)
    ensures forall i, j :: 0 <= i < j < |s| ==> s[i].h > s[j].h || (s[i].h == s[j].h && s[i].w >= s[j].w)
  {
    forall i, j | 0 <= i < j < |s|
      ensures s[i].h > s[j].h || (s[i].h == s[j].h && s[i].w >= s[j].w)
    {
      assert Compare(ByHeight, s[i], s[j]) <= 0;
    }
  }

  method PlaceByHeight(c: Context, rects: array<Rect>, ghost s0: seq<Rect>) returns (ghost shelves: seq<Shelf>)
    requires c.Valid() && Keyed(rects[..], s0) && forall k | 0 <= k < |s0| :: s0[k].w >= 0 && s0[k].h >= 0
    modifies c`activeHead, c`freeHead, c`active, c`free, c`boxes, c.Pool(), rects
    ensures c.Valid() && c.Pool() == old(c.Pool())
    ensures Keyed(rects[..], s0) && IsSorted(ByHeight, rects[..])
    ensures Turns(c.Config(), shelves, rects[..]) && shelves[0] == old(c.Now()) && shelves[rects.Length] == c.Now()
    ensures c.boxes == old(c.boxes) + NewBoxes(rects[..])
  {
    hide Keyed, Turns, NewBoxes, IsSorted, IsRearranged, IsSky, IsPacking, SkyOf, SameRect;
    hide Context.Valid, Context.Sky, Context.Lists, Context.Pool, Context.Now;
    ghost var s := rects[..];
    ghost var p := Sort(rects, ByHeight);
    ghost var sorted := rects[..];
    KeyedRearranged(s, sorted, p, s0);
    KeyedSizes(sorted, s0);
    shelves := PlaceAll(c, rects, s0);
    SizesSorted(sorted, rects[..]);
  }

  method RestoreOrder(rects: array<Rect>, ghost s0: seq<Rect>) returns (ghost p: seq<nat>)
    requires Keyed(rects[..], s0)
    modifies rects
    ensures |s0| == rects.Length && forall k | 0 <= k < rects.Length :: SameRect(rects[k], s0[k])
    ensures IsRearranged(old(rects[..]), rects[..], p)
  {
    hide Keyed, IsSorted, IsRearranged, SameRect;
    ghost var s := rects[..];
    p := Sort(rects, ByKey);
    KeyedRearranged(s, rects[..], p, s0);
    OrderRestored(rects[..], s0);
  }

  // ---------- What the flags leave alone ----------

  lemma FlagsKeepTurns(g: Setting, shelves: seq<Shelf>, order: seq<Rect>)
    requires Turns(g, shelves, order)
    ensures Turns(g, shelves, AllFlagged(order))
  {
    forall k | 0 <= k < |order|
      ensures Turn(g, shelves[k], Flagged(order[k]), shelves[k + 1])
    {
      hide CanPlace, Places;
      assert Turn(g, shelves[k], order[k], shelves[k + 1]);
    }
  }

  lemma {:induction false} FlagsKeepBoxes(order: seq<Rect>)
    ensures NewBoxes(AllFlagged(order)) == NewBoxes(order)
  {
    if order != [] {
      var n := |order| - 1;
      assert AllFlagged(order)[..n] == AllFlagged(order[..n]);
      FlagsKeepBoxes(order[..n]);
    }
  }

  lemma FlagsKeepOrder(order: seq<Rect>, rects: seq<Rect>, p: seq<nat>)
    requires IsRearranged(order, rects, p)
    ensures IsRearranged(AllFlagged(order), AllFlagged(rects), p)
  {
  }

  // ---------- Where the boxes of the rectangles are ----------

  /** The place of a packed rectangle's box among the new boxes. */
  lemma {:induction false} NewBoxAt(rs: seq<Rect>, i: nat)
    requires i < |rs| && !Empty(rs[i]) && !Rejected(rs[i])
    ensures |NewBoxes(rs[..i])| < |NewBoxes(rs[..i + 1])| <= |NewBoxes(rs)|
    ensures NewBoxes(rs)[|NewBoxes(rs[..i])|] == BoxOf(rs[i])
  {
    assert rs[..i + 1][..i] == rs[..i];
    if i < |rs| - 1 {
      var n := |rs| - 1;
      NewBoxAt(rs[..n], i);
      assert rs[..n][..i] == rs[..i] && rs[..n][..i + 1] == rs[..i + 1];
    } else {
      assert rs[..i + 1] == rs;
    }
  }

  lemma {:induction false} NewBoxesGrow(rs: seq<Rect>, i: nat)
    requires i <= |rs|
    ensures |NewBoxes(rs[..i])| <= |NewBoxes(rs)|
  {
    if i < |rs| {
      NewBoxesGrow(rs[..|rs| - 1], i);
      assert rs[..|rs| - 1][..i] == rs[..i];
    } else {
      assert rs[..i] == rs;
    }
  }

  /** Two packed rectangles of the list have different boxes among the new ones. */
  lemma BoxesDiffer(rs: seq<Rect>, i: nat, j: nat)
    requires i < j < |rs| && !Empty(rs[i]) && !Rejected(rs[i]) && !Empty(rs[j]) && !Rejected(rs[j])
    ensures |NewBoxes(rs[..i])| < |NewBoxes(rs[..j])| < |NewBoxes(rs)|
  {
    NewBoxAt(rs, i);
    NewBoxAt(rs, j);
    NewBoxesGrow(rs[..j], i + 1);
    assert rs[..j][..i + 1] == rs[..i + 1];
  }

  /** A packed rectangle's box is new, and disjoint from all boxes placed before the call. */
  ghost predicate Settled(r: Rect, before: seq<Box>, added: seq<Box>) {
    Empty(r) || Rejected(r) || (BoxOf(r) in added && forall b :: b in before ==> Disjoint(b, BoxOf(r)))
  }

  predicate Apart(p: Rect, q: Rect) {
    Empty(p) || Empty(q) || Rejected(p) || Rejected(q) || Disjoint(BoxOf(p), BoxOf(q))
  }

  ghost predicate AllSettled(rs: seq<Rect>, before: seq<Box>, added: seq<Box>) {
    && (forall k :: 0 <= k < |rs| ==> Settled(rs[k], before, added))
    && (forall j, k :: 0 <= j < k < |rs| ==> Apart(rs[j], rs[k]))
  }

  lemma OrderSettled(order: seq<Rect>, before: seq<Box>, sky: seq<Point>, width: int, height: int)
    requires IsPacking(sky, before + NewBoxes(order), width, height)
    ensures AllSettled(order, before, NewBoxes(order))
  {
    hide NewBoxes, Empty, Rejected, BoxOf, Disjoint, Below;
    var all := before + NewBoxes(order);
    forall k | 0 <= k < |order|
      ensures Settled(order[k], before, NewBoxes(order))
    {
      if !Empty(order[k]) && !Rejected(order[k]) {
        NewBoxAt(order, k);
        var m := |before| + |NewBoxes(order[..k])|;
        assert all[m] == BoxOf(order[k]);
        forall b | b in before
          ensures Disjoint(b, BoxOf(order[k]))
        {
          var n :| 0 <= n < |before| && before[n] == b;
          assert all[n] == b && Disjoint(all[n], all[m]);
        }
      }
    }
    forall j, k | 0 <= j < k < |order|
      ensures Apart(order[j], order[k])
    {
      if !Empty(order[j]) && !Rejected(order[j]) && !Empty(order[k]) && !Rejected(order[k]) {
        NewBoxAt(order, j);
        NewBoxAt(order, k);
        BoxesDiffer(order, j, k);
        var m, n := |before| + |NewBoxes(order[..j])|, |before| + |NewBoxes(order[..k])|;
        assert all[m] == BoxOf(order[j]) && all[n] == BoxOf(order[k]);
        assert Disjoint(all[m], all[n]);
      }
    }
  }

  lemma SettledRearranged(s: seq<Rect>, t: seq<Rect>, p: seq<nat>, before: seq<Box>, added: seq<Box>)
    requires AllSettled(s, before, added) && IsRearranged(s, t, p)
    ensures AllSettled(t, before, added)
  {
    hide Settled;
    forall j, k | 0 <= j < k < |t|
      ensures Apart(t[j], t[k])
    {
      if p[j] < p[k] { assert Apart(s[p[j]], s[p[k]]); } else { assert Apart(s[p[k]], s[p[j]]); }
    }
  }

  lemma {:induction false} NewBoxesConcat(a: seq<Rect>, b: seq<Rect>)
    ensures NewBoxes(a + b) == NewBoxes(a) + NewBoxes(b)
  {
    hide Empty, Rejected, BoxOf;
    if b == [] {
      assert a + b == a;
    } else {
      var n := |b| - 1;
      assert (a + b)[..|a + b| - 1] == a + b[..n];
      NewBoxesConcat(a, b[..n]);
    }
  }

  /** The boxes without those of element `m`, and then those. */
  lemma NewBoxesWithout(s: seq<Rect>, m: nat)
    requires m < |s|
    ensures multiset(NewBoxes(s)) == multiset(NewBoxes(s[..m] + s[m + 1..])) + multiset(NewBoxes([s[m]]))
  {
    hide NewBoxes;
    NewBoxesConcat(s[..m], s[m + 1..]);
    NewBoxesConcat(s[..m], [s[m]]);
    NewBoxesConcat(s[..m] + [s[m]], s[m + 1..]);
    assert s == s[..m] + [s[m]] + s[m + 1..];
  }

  /** A permutation without its last entry, over a sequence without the element that entry names. */
  lemma RearrangedWithout(s: seq<Rect>, t: seq<Rect>, p: seq<nat>) returns (q: seq<nat>)
    requires IsRearranged(s, t, p) && t != []
    ensures p[|t| - 1] < |s| && t[|t| - 1] == s[p[|t| - 1]]
    ensures IsRearranged(s[..p[|t| - 1]] + s[p[|t| - 1] + 1..], t[..|t| - 1], q)
  {
    var n := |t| - 1;
    var m := p[n];
    q := seq(n, i requires 0 <= i < n => if p[i] > m then p[i] - 1 else p[i]);
    forall i | 0 <= i < n
      ensures p[i] != m
    {
    }
  }

  /** Sorting back does not change which boxes there are. */
  lemma {:induction false} SameBoxes(s: seq<Rect>, t: seq<Rect>, p: seq<nat>)
    requires IsRearranged(s, t, p)
    ensures multiset(NewBoxes(s)) == multiset(NewBoxes(t))
    decreases |t|
  {
    if t == [] {
      assert s == t;
    } else {
      var n := |t| - 1;
      var q := RearrangedWithout(s, t, p);
      var m := p[n];
      hide IsRearranged, NewBoxes;
      SameBoxes(s[..m] + s[m + 1..], t[..n], q);
      NewBoxesWithout(s, m);
      NewBoxesWithout(t, n);
      assert t[..n] + t[n + 1..] == t[..n];
    }
  }

  lemma ValidPacking(c: Context)
    requires c.Valid()
    ensures IsPacking(c.Sky(), c.boxes, c.width, c.height)
  {
  }

  /**
   * The caller's array comes back in its order with identities and sizes untouched. The rectangles had their turns in
   * order of height: each was placed by the heuristic exactly if it could be at that moment. The new boxes are those of
   * the packed rectangles; they overlap neither each other nor any box of an earlier call.
   */
  method PackRects(c: Context, rects: array<Rect>)
    returns (all: bool, ghost order: seq<Rect>, ghost p: seq<nat>, ghost shelves: seq<Shelf>)
    requires c.Valid() && forall k | 0 <= k < rects.Length :: rects[k].w >= 0 && rects[k].h >= 0
    modifies c`activeHead, c`freeHead, c`active, c`free, c`boxes, c.Pool(), rects
    ensures c.Valid() && c.Pool() == old(c.Pool())
    ensures forall k | 0 <= k < rects.Length :: SameRect(rects[k], old(rects[k]))
    ensures forall k | 0 <= k < rects.Length ::
              rects[k].wasPacked == if rects[k].x == 0x7FFF_FFFF && rects[k].y == 0x7FFF_FFFF then 0 else 1
    ensures all <==> forall k | 0 <= k < rects.Length :: rects[k].wasPacked == 1
    ensures IsRearranged(order, rects[..], p)
    ensures forall i, j :: 0 <= i < j < |order| ==>
              order[i].h > order[j].h || (order[i].h == order[j].h && order[i].w >= order[j].w)
    ensures Turns(c.Config(), shelves, order) && shelves[0] == old(c.Now()) && shelves[|order|] == c.Now()
    ensures c.boxes == old(c.boxes) + NewBoxes(order)
    ensures multiset(NewBoxes(order)) == multiset(NewBoxes(rects[..]))
    ensures AllSettled(rects[..], old(c.boxes), NewBoxes(order))
  {
    hide Keyed, Turns, NewBoxes, AllSettled, IsSky, IsPacking, SkyOf, Rejected, SameRect, IsSorted, IsRearranged;
    hide AllFlagged;
    hide Context.Valid, Context.Sky, Context.Lists, Context.Pool, Context.Now;
    ghost var s0 := rects[..];
    RememberOrder(rects);
    shelves := PlaceByHeight(c, rects, s0);
    ghost var placed := rects[..];
    p := RestoreOrder(rects, s0);
    ghost var restored := rects[..];
    all := SetFlags(rects);
    order := AllFlagged(placed);
    FlagsKeepTurns(c.Config(), shelves, placed);
    FlagsKeepBoxes(placed);
    FlagsKeepOrder(placed, restored, p);
    FlagsKeepSizes(placed, restored, s0);
    TallestFirst(order);
    SameBoxes(order, rects[..], p);
    ValidPacking(c);
    OrderSettled(order, old(c.boxes), c.Sky(), c.width, c.height);
    SettledRearranged(order, rects[..], p, old(c.boxes), NewBoxes(order));
  }

  lemma FlagsKeepSizes(order: seq<Rect>, rects: seq<Rect>, s0: seq<Rect>)
    requires IsSorted(ByHeight, order) && |rects| == |s0| && forall k | 0 <= k < |rects| :: SameRect(rects[k], s0[k])
    ensures IsSorted(ByHeight, AllFlagged(order)) && |AllFlagged(order)| == |order|
    ensures |AllFlagged(rects)| == |rects|
    ensures forall k | 0 <= k < |rects| :: SameRect(AllFlagged(rects)[k], s0[k])
    ensures forall k | 0 <= k < |rects| ::
              var r := AllFlagged(rects)[k];
              r.wasPacked == if r.x == 0x7FFF_FFFF && r.y == 0x7FFF_FFFF then 0 else 1
  {
    SizesSorted(order, AllFlagged(order));
  }
}
