/** Merging the blocked cells of a grid into wall segments, in cell coordinates. */
module Segments {
  import opened Moves

  /** A straight run of cells from (x1, y1) to (x2, y2), both included. */
  datatype Segment = Segment(x1: int, y1: int, x2: int, y2: int)

  predicate Covers(s: Segment, c: Cell) {
    s.x1 <= c.x <= s.x2 && s.y1 <= c.y <= s.y2
  }

  function Solid(blocked: array2<bool>): (solid: set<Cell>)
    reads blocked
    ensures forall c :: c in solid <==> 0 <= c.x < blocked.Length1 && 0 <= c.y < blocked.Length0 && blocked[c.y, c.x]
  {
    set x, y | 0 <= x < blocked.Length1 && 0 <= y < blocked.Length0 && blocked[y, x] :: Cell(x, y)
  }

  /** A vertical run that cannot be made longer at either end. */
  ghost predicate IsRun(solid: set<Cell>, s: Segment) {
    && s.x1 == s.x2 && s.y1 <= s.y2
    && (forall c | Covers(s, c) :: c in solid)
    && Cell(s.x1, s.y1 - 1) !in solid && Cell(s.x1, s.y2 + 1) !in solid
  }

  /** Every blocked cell lies in at most one maximal run. */
  lemma RunsAreDisjoint(solid: set<Cell>, s: Segment, t: Segment, c: Cell)
    requires IsRun(solid, s) && IsRun(solid, t) && Covers(s, c) && Covers(t, c)
    ensures s == t
  {
    assert s.y1 < t.y1 ==> Covers(s, Cell(t.x1, t.y1 - 1));
    assert t.y1 < s.y1 ==> Covers(t, Cell(s.x1, s.y1 - 1));
    assert s.y2 < t.y2 ==> Covers(t, Cell(s.x1, s.y2 + 1));
    assert t.y2 < s.y2 ==> Covers(s, Cell(t.x1, t.y2 + 1));
  }

  ghost predicate Distinct(walls: seq<Segment>) {
    forall i, j | 0 <= i < j < |walls| :: walls[i] != walls[j]
  }

  /** Where the scan stands: everything before column gx, and column gx below gy. */
  ghost predicate Passed(c: Cell, gx: int, gy: int) {
    c.x < gx || (c.x == gx && c.y < gy)
  }

  /** The runs that end before the scan position, and nothing else, have been emitted. */
  ghost predicate Scanned(solid: set<Cell>, walls: seq<Segment>, gx: int, gy: int) {
    && Distinct(walls)
    && forall s :: s in walls <==> IsRun(solid, s) && Passed(Cell(s.x2, s.y2), gx, gy)
  }

  /** The scan is not inside a run. */
  ghost predicate Between(solid: set<Cell>, gx: int, gy: int) {
    Cell(gx, gy - 1) in solid ==> Cell(gx, gy) !in solid
  }

  /** Exactly the blocked cells before the scan position are used. */
  ghost predicate UsedUpTo(solid: set<Cell>, used: set<Cell>, gx: int, gy: int) {
    forall c :: c in used <==> c in solid && Passed(c, gx, gy)
  }

  lemma OpenCellScanned(solid: set<Cell>, walls: seq<Segment>, used: set<Cell>, gx: int, gy: int)
    requires Scanned(solid, walls, gx, gy) && UsedUpTo(solid, used, gx, gy) && Cell(gx, gy) !in solid
    ensures Scanned(solid, walls, gx, gy + 1) && UsedUpTo(solid, used, gx, gy + 1) && Between(solid, gx, gy + 1)
  {
    forall s | IsRun(solid, s) && s.x2 == gx
      ensures s.y2 != gy
    {
      assert Covers(s, Cell(s.x2, s.y2));
    }
  }

  lemma RunScanned(solid: set<Cell>, walls: seq<Segment>, gx: int, gy: int, end: int)
    requires Scanned(solid, walls, gx, gy) && IsRun(solid, Segment(gx, gy, gx, end - 1))
    ensures Scanned(solid, walls + [Segment(gx, gy, gx, end - 1)], gx, end)
  {
    var run := Segment(gx, gy, gx, end - 1);
    forall s | IsRun(solid, s) && s.x2 == gx && gy <= s.y2 < end
      ensures s == run
    {
      RunsAreDisjoint(solid, s, run, Cell(gx, s.y2));
    }
  }

  lemma ColumnScanned(solid: set<Cell>, walls: seq<Segment>, used: set<Cell>, gx: int, dim: nat)
    requires Scanned(solid, walls, gx, dim) && UsedUpTo(solid, used, gx, dim)
    requires forall c | c in solid :: 0 <= c.x < dim && 0 <= c.y < dim
    ensures Scanned(solid, walls, gx + 1, 0) && UsedUpTo(solid, used, gx + 1, 0)
  {
    forall s | IsRun(solid, s)
      ensures 0 <= s.y2 < dim
    {
      assert Covers(s, Cell(s.x2, s.y2));
    }
  }

  /** Goes up from a blocked cell with no blocked cell below it as far as possible. */
  method VerticalRun(blocked: array2<bool>, dim: nat, gx: nat, start: nat) returns (gy: nat)
    requires blocked.Length0 == blocked.Length1 == dim && gx < dim && start < dim
    requires blocked[start, gx] && Cell(gx, start - 1) !in Solid(blocked)
    ensures start < gy <= dim && IsRun(Solid(blocked), Segment(gx, start, gx, gy - 1))
    ensures forall y | start <= y < gy :: Cell(gx, y) in Solid(blocked)
  {
    gy := start;
    while gy < dim && blocked[gy, gx]
      invariant start <= gy <= dim && (gy == start ==> blocked[gy, gx])
      invariant forall y | start <= y < gy :: Cell(gx, y) in Solid(blocked)
    {
      gy := gy + 1;
    }
  }

  /** Marks the cells of a run. */
  method MarkRun(ghost solid: set<Cell>, used: set<Cell>, gx: nat, start: nat, end: nat) returns (more: set<Cell>)
    requires UsedUpTo(solid, used, gx, start) && start <= end
    requires forall y | start <= y < end :: Cell(gx, y) in solid
    ensures UsedUpTo(solid, more, gx, end)
  {
    more := used;
    for mark := start to end
      invariant UsedUpTo(solid, more, gx, mark)
    {
      more := more + {Cell(gx, mark)};
    }
  }

  /** First pass: one segment per maximal vertical run. */
  method VerticalSegments(blocked: array2<bool>, dim: nat) returns (walls: seq<Segment>, used: set<Cell>)
    requires blocked.Length0 == blocked.Length1 == dim
    ensures Distinct(walls) && (forall s :: s in walls <==> IsRun(Solid(blocked), s))
    ensures used == Solid(blocked)
  {
    ghost var solid := Solid(blocked);
    walls, used := [], {};
    NoRunsYet(solid, dim);
    for gx := 0 to dim
      invariant Scanned(solid, walls, gx, 0)
      invariant UsedUpTo(solid, used, gx, 0)
    {
      var gy := 0;
      while gy < dim
        invariant 0 <= gy <= dim
        invariant Scanned(solid, walls, gx, gy) && Between(solid, gx, gy)
        invariant UsedUpTo(solid, used, gx, gy)
      {
        if blocked[gy, gx] && Cell(gx, gy) !in used {
          var end := VerticalRun(blocked, dim, gx, gy);
          RunScanned(solid, walls, gx, gy, end);
          walls := walls + [Segment(gx, gy, gx, end - 1)];
          used := MarkRun(solid, used, gx, gy, end);
          gy := end;
        } else {
          OpenCellScanned(solid, walls, used, gx, gy);
          gy := gy + 1;
        }
      }
      ColumnScanned(solid, walls, used, gx, dim);
    }
    AllScanned(solid, walls, dim);
  }

  lemma NoRunsYet(solid: set<Cell>, dim: nat)
    requires forall c | c in solid :: 0 <= c.x < dim && 0 <= c.y < dim
    ensures Scanned(solid, [], 0, 0)
  {
    forall s | IsRun(solid, s)
      ensures !Passed(Cell(s.x2, s.y2), 0, 0)
    {
      assert Covers(s, Cell(s.x2, s.y2));
    }
  }

  lemma AllScanned(solid: set<Cell>, walls: seq<Segment>, dim: nat)
    requires Scanned(solid, walls, dim, 0) && forall c | c in solid :: 0 <= c.x < dim && 0 <= c.y < dim
    ensures forall s :: s in walls <==> IsRun(solid, s)
    ensures forall c | c in solid :: Passed(c, dim, 0)
  {
    forall s | IsRun(solid, s)
      ensures Passed(Cell(s.x2, s.y2), dim, 0)
    {
      assert Covers(s, Cell(s.x2, s.y2));
    }
  }

  /** Second pass: horizontal segments for the blocked cells that are not used yet. */
  method HorizontalSegments(blocked: array2<bool>, dim: nat, used: set<Cell>) returns (walls: seq<Segment>)
    requires blocked.Length0 == blocked.Length1 == dim
    ensures forall s | s in walls :: s.y1 == s.y2 && s.x1 <= s.x2 && forall c | Covers(s, c) ::
              c in Solid(blocked) - used
    ensures forall c | c in Solid(blocked) - used :: exists s | s in walls :: Covers(s, c)
    ensures used >= Solid(blocked) ==> walls == []
  {
    ghost var solid := Solid(blocked);
    walls := [];
    var marked := used;
    for gy := 0 to dim
      invariant HorizontallyScanned(solid, used, marked, walls)
      invariant AllMarked(solid, used, marked, 0, gy)
    {
      var gx := 0;
      while gx < dim
        invariant 0 <= gx <= dim
        invariant HorizontallyScanned(solid, used, marked, walls)
        invariant AllMarked(solid, used, marked, gx, gy)
      {
        if blocked[gy, gx] && Cell(gx, gy) !in marked {
          var end, more := HorizontalRun(blocked, dim, used, marked, gx, gy);
          RunMarked(solid, used, marked, more, walls, Segment(gx, gy, end - 1, gy));
          walls := walls + [Segment(gx, gy, end - 1, gy)];
          gx, marked := end, more;
        } else {
          gx := gx + 1;
        }
      }
    }
    if walls != [] {
      assert walls[0] in walls && Covers(walls[0], Cell(walls[0].x1, walls[0].y1));
    }
  }

  /** Everything blocked before the scan position is marked, and nothing after it was added. */
  ghost predicate AllMarked(solid: set<Cell>, used: set<Cell>, marked: set<Cell>, gx: int, gy: int) {
    && (forall c | c in solid && (c.y < gy || (c.y == gy && c.x < gx)) :: c in marked)
    && forall c | c in marked && c !in used :: c.y < gy || (c.y == gy && c.x < gx)
  }

  /** Goes right from a blocked unmarked cell as far as possible and marks the cells passed. */
  method HorizontalRun(blocked: array2<bool>, dim: nat, ghost used: set<Cell>, marked: set<Cell>, start: nat, gy: nat)
    returns (gx: nat, more: set<Cell>)
    requires blocked.Length0 == blocked.Length1 == dim && start < dim && gy < dim
    requires blocked[gy, start] && Cell(start, gy) !in marked && used <= marked
    requires AllMarked(Solid(blocked), used, marked, start, gy)
    ensures start < gx <= dim && AllMarked(Solid(blocked), used, more, gx, gy)
    ensures forall x | start <= x < gx :: Cell(x, gy) in Solid(blocked) - used
    ensures forall c :: c in more <==> c in marked || Covers(Segment(start, gy, gx - 1, gy), c)
  {
    gx := start;
    while gx < dim && blocked[gy, gx] && Cell(gx, gy) !in marked
      invariant start <= gx <= dim && (gx == start ==> blocked[gy, gx] && Cell(gx, gy) !in marked)
      invariant forall x | start <= x < gx :: Cell(x, gy) in Solid(blocked) - used
    {
      gx := gx + 1;
    }
    more := marked;
    for mark := start to gx
      invariant more == marked + set x | start <= x < mark :: Cell(x, gy)
    {
      more := more + {Cell(mark, gy)};
    }
  }

  ghost predicate HorizontallyScanned(solid: set<Cell>, used: set<Cell>, marked: set<Cell>, walls: seq<Segment>) {
    && used <= marked
    && (forall s | s in walls :: s.y1 == s.y2 && s.x1 <= s.x2 && forall c | Covers(s, c) :: c in solid - used)
    && forall c | c in marked && c !in used :: exists s | s in walls :: Covers(s, c)
  }

  lemma RunMarked(solid: set<Cell>, used: set<Cell>, before: set<Cell>, marked: set<Cell>, walls: seq<Segment>,
                  s: Segment)
    requires HorizontallyScanned(solid, used, before, walls)
    requires s.y1 == s.y2 && s.x1 <= s.x2 && forall c | Covers(s, c) :: c in solid - used
    requires forall c :: c in marked <==> c in before || Covers(s, c)
    ensures HorizontallyScanned(solid, used, marked, walls + [s])
  {
    forall c | c in marked && c !in used
      ensures exists t | t in walls + [s] :: Covers(t, c)
    {
      if Covers(s, c) {
        assert s in walls + [s];
      } else {
        var t :| t in walls && Covers(t, c);
        assert t in walls + [s];
      }
    }
  }

  /** Both passes. The second one never emits anything. */
  method BlockedToWallSegments(blocked: array2<bool>, dim: nat) returns (walls: seq<Segment>)
    requires blocked.Length0 == blocked.Length1 == dim
    ensures Distinct(walls) && (forall s :: s in walls <==> IsRun(Solid(blocked), s))
  {
    var used;
    walls, used := VerticalSegments(blocked, dim);
    var horizontal := HorizontalSegments(blocked, dim, used);
    walls := walls + horizontal;
  }

  // ---- What the segments mean ----

  function Column(s: Segment): (cells: set<Cell>)
    ensures forall c :: c in cells <==> c.x == s.x1 && s.y1 <= c.y <= s.y2
  {
    set y | s.y1 <= y <= s.y2 :: Cell(s.x1, y)
  }

  /** Drawing the segments back on a grid. */
  function Raster(walls: seq<Segment>): set<Cell> {
    if walls == [] then {} else Raster(walls[..|walls| - 1]) + Column(walls[|walls| - 1])
  }

  function TotalLength(walls: seq<Segment>): int {
    if walls == [] then 0
    else TotalLength(walls[..|walls| - 1]) + walls[|walls| - 1].y2 - walls[|walls| - 1].y1 + 1
  }

  lemma {:induction false} RasterMeans(walls: seq<Segment>, c: Cell)
    ensures c in Raster(walls) <==> exists s | s in walls :: c in Column(s)
  {
    if walls != [] {
      RasterMeans(walls[..|walls| - 1], c);
    }
  }

  lemma ColumnTop(s: Segment)
    requires s.y1 <= s.y2
    ensures Column(s) == Column(s.(y2 := s.y2 - 1)) + {Cell(s.x1, s.y2)}
    ensures Cell(s.x1, s.y2) !in Column(s.(y2 := s.y2 - 1))
  {
  }

  lemma {:induction false} ColumnLength(s: Segment)
    requires s.y1 <= s.y2 + 1
    ensures |Column(s)| == s.y2 - s.y1 + 1
    decreases s.y2 - s.y1 + 1
  {
    if s.y1 <= s.y2 {
      ColumnLength(s.(y2 := s.y2 - 1));
      ColumnTop(s);
    } else {
      assert forall c :: c !in Column(s);
    }
  }

  lemma {:induction false} LengthsAddUp(solid: set<Cell>, walls: seq<Segment>)
    requires Distinct(walls) && forall s | s in walls :: IsRun(solid, s)
    ensures TotalLength(walls) == |Raster(walls)|
  {
    if walls != [] {
      var rest, last := walls[..|walls| - 1], walls[|walls| - 1];
      LengthsAddUp(solid, rest);
      assert last in walls;
      ColumnLength(last);
      forall c | c in Raster(rest) && c in Column(last)
        ensures false
      {
        RasterMeans(rest, c);
        var s :| s in rest && c in Column(s);
        RunsAreDisjoint(solid, s, last, c);
      }
      assert Raster(rest) !! Column(last);
    }
  }

  /** The run through a blocked cell, found by going down and up as far as it is blocked. */
  lemma RunThrough(solid: set<Cell>, dim: nat, c: Cell) returns (s: Segment)
    requires c in solid && forall d | d in solid :: 0 <= d.x < dim && 0 <= d.y < dim
    ensures IsRun(solid, s) && Covers(s, c)
  {
    var low, high := c.y, c.y;
    while Cell(c.x, low - 1) in solid
      invariant low <= c.y && forall y | low <= y <= c.y :: Cell(c.x, y) in solid
      decreases low
    {
      low := low - 1;
    }
    while Cell(c.x, high + 1) in solid
      invariant high >= c.y && forall y | c.y <= y <= high :: Cell(c.x, y) in solid
      decreases dim - high
    {
      high := high + 1;
    }
    s := Segment(c.x, low, c.x, high);
  }

  /** The segments redraw the grid, no blocked cell is in two of them, and their lengths add up to the
      number of blocked cells. */
  lemma SegmentsPartitionTheWalls(solid: set<Cell>, dim: nat, walls: seq<Segment>)
    requires Distinct(walls) && (forall s :: s in walls <==> IsRun(solid, s))
    requires forall c | c in solid :: 0 <= c.x < dim && 0 <= c.y < dim
    ensures Raster(walls) == solid
    ensures forall i, j, c | 0 <= i < j < |walls| && Covers(walls[i], c) :: !Covers(walls[j], c)
    ensures TotalLength(walls) == |solid|
  {
    forall c
      ensures c in Raster(walls) <==> c in solid
    {
      RasterMeans(walls, c);
      if c in solid {
        var s := RunThrough(solid, dim, c);
        assert s in walls && c in Column(s);
      }
    }
    forall i, j, c | 0 <= i < j < |walls| && Covers(walls[i], c)
      ensures !Covers(walls[j], c)
    {
      if Covers(walls[j], c) {
        RunsAreDisjoint(solid, walls[i], walls[j], c);
      }
    }
    LengthsAddUp(solid, walls);
  }
}
