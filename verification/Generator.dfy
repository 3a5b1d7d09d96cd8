/** Generating a map: carving, opening, expanding, obstructing, clearing and measuring. */
module Generator {
  import opened Moves
  import opened ShortestPath
  import opened Rooms
  import Expansion
  import opened Obstacles
  import opened Wrappers

  // ---- Obstacles and cleared squares on the grid ----

  /** Blocks or opens one cell of a grid. */
  method SetCell(blocked: array2<bool>, dim: nat, ghost open: set<Cell>, c: Cell, value: bool)
    requires Expansion.ShowsOpen(blocked, dim, open) && Expansion.Inside(dim, c)
    modifies blocked
    ensures Expansion.ShowsOpen(blocked, dim, if value then open - {c} else open + {c})
  {
    blocked[c.y, c.x] := value;
  }

  ghost function ObstructedIn(n: nat, k: nat, start: Cell, goal: Cell, density: real, roll: Cell -> real, x: int,
                              y: int): set<Cell>
  {
    set c | c in Expansion.OpenGrid(n, k, {}) && Obstructed(n, k, start, goal, density, roll, c)
            && Expansion.Before(Expansion.PlaceOf(n, k, c).room, x, y)
  }

  ghost function ObstructedOf(n: nat, k: nat, r: Cell, density: real, roll: Cell -> real): set<Cell> {
    set c | c in Expansion.OpenGrid(n, k, {}) && Expansion.PlaceOf(n, k, c) == Expansion.Room(r) && Inner(k, c)
            && roll(c) < density
  }

  lemma RoomObstacles(n: nat, k: nat, start: Cell, goal: Cell, density: real, roll: Cell -> real, x: int, y: int)
    requires density > 0.0 && k > 0 && InGrid(n, Cell(x, y))
    ensures ObstructedIn(n, k, start, goal, density, roll, x + 1, y)
            == ObstructedIn(n, k, start, goal, density, roll, x, y)
               + if Safe(start, goal, Cell(x, y)) then {} else ObstructedOf(n, k, Cell(x, y), density, roll)
  {
  }

  /** The offsets inside a room that may be obstructed. */
  function InnerFrom(k: nat): nat { if k >= 3 then 1 else 0 }
  function InnerTo(k: nat): nat { if k >= 3 then k - 1 else k }

  ghost predicate InSquare(x0: int, y0: int, from: int, to: int, c: Cell) {
    x0 + from <= c.x < x0 + to && y0 + from <= c.y < y0 + to
  }

  lemma InnerCells(n: nat, k: nat, r: Cell)
    requires k > 0 && InGrid(n, r)
    ensures var x0, y0 := r.x * (k + 1) + 1, r.y * (k + 1) + 1;
            && 0 <= x0 && x0 + k < Expansion.Dimension(n, k) && 0 <= y0 && y0 + k < Expansion.Dimension(n, k)
            && forall c :: InSquare(x0, y0, InnerFrom(k), InnerTo(k), c)
                           <==> Expansion.PlaceOf(n, k, c) == Expansion.Room(r) && Inner(k, c)
  {
    Expansion.RoomIsRect(n, k, r);
    Expansion.BaseIsProduct(k + 1, r.x);
    Expansion.BaseIsProduct(k + 1, r.y);
  }

  /** Blocks the cells of a square whose draw is below the density. */
  method ObstructSquare(blocked: array2<bool>, dim: nat, ghost open: set<Cell>, density: real, roll: Cell -> real,
                        x0: nat, y0: nat, from: nat, to: nat)
    requires Expansion.ShowsOpen(blocked, dim, open)
    requires from <= to && x0 + to <= dim && y0 + to <= dim
    modifies blocked
    ensures Expansion.ShowsOpen(blocked, dim,
                                set c | c in open && !(InSquare(x0, y0, from, to, c) && roll(c) < density))
  {
    ghost var now := open;
    for dy := from to to
      invariant now == set c | c in open && !(roll(c) < density && InSquare(x0, y0, from, to, c) && c.y < y0 + dy)
      invariant Expansion.ShowsOpen(blocked, dim, now)
    {
      for dx := from to to
        invariant now == set c | c in open && !(roll(c) < density && InSquare(x0, y0, from, to, c)
                                                && Expansion.Before(c, x0 + dx, y0 + dy))
        invariant Expansion.ShowsOpen(blocked, dim, now)
      {
        var c := Cell(x0 + dx, y0 + dy);
        if roll(c) < density {
          SetCell(blocked, dim, now, c, true);
          now := now - {c};
        }
      }
    }
    assert now == set c | c in open && !(InSquare(x0, y0, from, to, c) && roll(c) < density);
  }

  /** Every inner cell of a room is blocked when its draw is below the density. */
  method ObstructRoom(blocked: array2<bool>, n: nat, k: nat, ghost open: set<Cell>, density: real, roll: Cell -> real,
                      r: Cell)
    requires Expansion.ShowsOpen(blocked, Expansion.Dimension(n, k), open) && InGrid(n, r) && k > 0
    modifies blocked
    ensures Expansion.ShowsOpen(blocked, Expansion.Dimension(n, k), open - ObstructedOf(n, k, r, density, roll))
  {
    InnerCells(n, k, r);
    var x0, y0 := r.x * (k + 1) + 1, r.y * (k + 1) + 1;
    ObstructSquare(blocked, Expansion.Dimension(n, k), open, density, roll, x0, y0, InnerFrom(k), InnerTo(k));
  }

  ghost function AllObstructed(n: nat, k: nat, start: Cell, goal: Cell, density: real,
                               roll: Cell -> real): (all: set<Cell>)
    ensures forall c :: c in all <==>
              Expansion.Inside(Expansion.Dimension(n, k), c) && Obstructed(n, k, start, goal, density, roll, c)
  {
    set c | c in Expansion.OpenGrid(n, k, {}) && Obstructed(n, k, start, goal, density, roll, c)
  }

  /** Random obstacles in the rooms away from start and goal. */
  method AddRoomObstacles(blocked: array2<bool>, n: nat, k: nat, ghost open: set<Cell>, density: real,
                          roll: Cell -> real, start: Cell, goal: Cell)
    requires Expansion.ShowsOpen(blocked, Expansion.Dimension(n, k), open) && k > 0
    modifies blocked
    ensures Expansion.ShowsOpen(blocked, Expansion.Dimension(n, k),
              open - AllObstructed(n, k, start, goal, density, roll))
    ensures forall r, c | InGrid(n, r) && Expansion.InRoom(k, r, c) && Expansion.Inside(Expansion.Dimension(n, k), c) ::
              blocked[c.y, c.x] <==>
                c !in open || (density > 0.0 && roll(c) < density && FarFrom(r, start, goal) && MayHold(k, r, c))
    ensures forall c | Expansion.Inside(Expansion.Dimension(n, k), c) && !Expansion.PlaceOf(n, k, c).Room? ::
              blocked[c.y, c.x] <==> c !in open
  {
    forall r, c | InGrid(n, r) && Expansion.InRoom(k, r, c)
      ensures Obstructed(n, k, start, goal, density, roll, c) <==>
                density > 0.0 && roll(c) < density && FarFrom(r, start, goal) && MayHold(k, r, c)
    {
      ObstructedExactly(n, k, start, goal, density, roll, r, c);
    }
    if density <= 0.0 {
      return;
    }
    ghost var now := open;
    for ry := 0 to n
      invariant now == open - ObstructedIn(n, k, start, goal, density, roll, 0, ry)
      invariant Expansion.ShowsOpen(blocked, Expansion.Dimension(n, k), now)
    {
      for rx := 0 to n
        invariant now == open - ObstructedIn(n, k, start, goal, density, roll, rx, ry)
        invariant Expansion.ShowsOpen(blocked, Expansion.Dimension(n, k), now)
      {
        var r := Cell(rx, ry);
        RoomObstacles(n, k, start, goal, density, roll, rx, ry);
        if Near(r, start, 1) {
          continue;
        }
        if Near(r, goal, 1) {
          continue;
        }
        ObstructRoom(blocked, n, k, now, density, roll, r);
        now := now - ObstructedOf(n, k, r, density, roll);
      }
      assert ObstructedIn(n, k, start, goal, density, roll, n, ry)
          == ObstructedIn(n, k, start, goal, density, roll, 0, ry + 1);
    }
    assert ObstructedIn(n, k, start, goal, density, roll, 0, n) == AllObstructed(n, k, start, goal, density, roll);
  }

  ghost function SquareBefore(dim: nat, centre: Cell, radius: nat, x: int, y: int): set<Cell> {
    set c | c in OpenCells(dim, dim, c => true) && Near(c, centre, radius) && Expansion.Before(c, x, y)
  }

  ghost function Square(dim: nat, centre: Cell, radius: nat): (s: set<Cell>)
    ensures forall c :: c in s <==> Expansion.Inside(dim, c) && Near(c, centre, radius)
  {
    set c | c in OpenCells(dim, dim, c => true) && Near(c, centre, radius)
  }

  /** Opens the cells of the square around a cell, as far as they lie on the grid. */
  method ClearBlockedSafeZone(blocked: array2<bool>, dim: nat, ghost open: set<Cell>, centre: Cell, radius: nat)
    requires Expansion.ShowsOpen(blocked, dim, open)
    modifies blocked
    ensures Expansion.ShowsOpen(blocked, dim, open + Square(dim, centre, radius))
    ensures forall x, y {:trigger blocked[y, x]} | 0 <= x < dim && 0 <= y < dim ::
              blocked[y, x] <==>
                old(blocked[y, x]) && !(centre.x - radius <= x <= centre.x + radius
                    && centre.y - radius <= y <= centre.y + radius)
  {
    var reach: int := radius;
    ghost var now, left := open, centre.x - reach;
    for dy := -reach to reach + 1
      invariant now == open + SquareBefore(dim, centre, radius, left, centre.y + dy)
      invariant Expansion.ShowsOpen(blocked, dim, now)
    {
      for dx := -reach to reach + 1
        invariant now == open + SquareBefore(dim, centre, radius, centre.x + dx, centre.y + dy)
        invariant Expansion.ShowsOpen(blocked, dim, now)
      {
        var c := Cell(centre.x + dx, centre.y + dy);
        assert SquareBefore(dim, centre, radius, c.x + 1, c.y)
            == SquareBefore(dim, centre, radius, c.x, c.y) + if Expansion.Inside(dim, c) then {c} else {};
        if 0 <= c.x < dim && 0 <= c.y < dim {
          SetCell(blocked, dim, now, c, false);
          now := now + {c};
        }
      }
      assert SquareBefore(dim, centre, radius, centre.x + radius + 1, centre.y + dy)
          == SquareBefore(dim, centre, radius, left, centre.y + dy + 1);
    }
    assert SquareBefore(dim, centre, radius, left, centre.y + radius + 1) == Square(dim, centre, radius);
  }

  // ---- Measuring ----

  /** The number of actions a map needs, or -1 when they do not lead to the goal or one end is blocked. */
  method ShortestActionSteps(blocked: array2<bool>, dim: nat, ghost open: set<Cell>, start: Cell, goal: Cell)
    returns (steps: int)
    requires Expansion.ShowsOpen(blocked, dim, open) && forall c | c in open :: Expansion.Inside(dim, c)
    ensures steps >= 0 ==> IsDistance(open, start, goal, steps)
    ensures steps >= -1 && (steps == -1 <==> start !in open || goal !in open || Unreachable(open, start, goal))
  {
    var free := set x, y | 0 <= x < dim && 0 <= y < dim && !blocked[y, x] :: Cell(x, y);
    assert free == open;
    if start !in free || goal !in free {
      return -1;
    }
    assert OpenCells(dim, dim, c => c in free) == open;
    steps := BreadthFirst(dim, dim, c => c in free, start, goal);
  }

  // ---- Start and goal ----

  /** How start and goal room are found: opposite corners, from configured cells, or drawn. */
  datatype Mode = Default | Fixed(startCell: Cell, goalCell: Cell) | Random(minDistance: int)

  function RoomOf(n: nat, k: nat, c: Cell): (r: Cell)
    requires n > 0
    ensures InGrid(n, r)
    ensures Expansion.PlaceOf(n, k, c).Room? ==> r == Expansion.PlaceOf(n, k, c).room
    // Any other cell counts to the room before it, as far as there is one.
    ensures (r.x > 0 ==> r.x * (k + 1) < c.x) && (r.x < n - 1 ==> c.x <= (r.x + 1) * (k + 1))
    ensures (r.y > 0 ==> r.y * (k + 1) < c.y) && (r.y < n - 1 ==> c.y <= (r.y + 1) * (k + 1))
  {
    Column(n, k, c.x);
    Column(n, k, c.y);
    ColumnRange(n, k, c.x);
    ColumnRange(n, k, c.y);
    Cell(Max(0, Min(n - 1, (c.x - 1) / (k + 1))), Max(0, Min(n - 1, (c.y - 1) / (k + 1))))
  }

  lemma ProductsGrow(a: int, b: int, s: nat)
    requires a <= b
    ensures a * s <= b * s
  {
    assert b * s == a * s + (b - a) * s;
  }

  lemma ColumnRange(n: nat, k: nat, x: int)
    requires n > 0
    ensures var i := Max(0, Min(n - 1, (x - 1) / (k + 1)));
            (i > 0 ==> i * (k + 1) < x) && (i < n - 1 ==> x <= (i + 1) * (k + 1))
  {
    var s := k + 1;
    var q := (x - 1) / s;
    FloorRange(x - 1, s);
    var i := Max(0, Min(n - 1, q));
    if i > 0 {
      ProductsGrow(i, q, s);
    }
    if i < n - 1 {
      ProductsGrow(q + 1, i + 1, s);
    }
  }

  lemma FloorRange(x: int, s: nat)
    requires s > 0
    ensures (x / s) * s <= x < (x / s + 1) * s
  {
    assert x == (x / s) * s + x % s;
  }

  lemma Column(n: nat, k: nat, x: int)
    requires n > 0
    ensures x > 0 && Expansion.Locate(k + 1, x).offset > 0 ==> (x - 1) / (k + 1) == Expansion.Locate(k + 1, x).room
  {
    if x > 0 && Expansion.Locate(k + 1, x).offset > 0 {
      var p := Expansion.Locate(k + 1, x);
      Expansion.BaseIsProduct(k + 1, p.room);
      DivMod(p.room, p.offset - 1, k + 1);
    }
  }

  predicate FarEnough(a: Cell, b: Cell, minDistance: int) {
    minDistance <= 0 || (a.x - b.x) * (a.x - b.x) + (a.y - b.y) * (a.y - b.y) >= minDistance * minDistance
  }

  /** Comparing squares is comparing the distance itself. */
  lemma FarEnoughIsDistance(a: Cell, b: Cell, minDistance: int, distance: real)
    requires distance >= 0.0
    requires distance * distance == ((a.x - b.x) * (a.x - b.x) + (a.y - b.y) * (a.y - b.y)) as real
    ensures FarEnough(a, b, minDistance) <==> distance >= minDistance as real
  {
    if minDistance > 0 {
      var m := minDistance as real;
      assert m * m == (minDistance * minDistance) as real;
      assert distance >= m ==> distance * distance >= m * distance >= m * m;
      assert distance < m ==> distance * distance <= m * distance < m * m;
    }
  }

  ghost predicate DrawsRooms(n: nat, draw: nat -> (Cell, Cell)) {
    forall i: nat :: InGrid(n, draw(i).0) && InGrid(n, draw(i).1)
  }

  /** All 500 draws are too close together. */
  ghost predicate NoneFits(minDistance: int, draw: nat -> (Cell, Cell)) {
    forall i | 0 <= i < 500 :: !FarEnough(draw(i).0, draw(i).1, minDistance)
  }

  ghost predicate FirstFit(minDistance: int, draw: nat -> (Cell, Cell), rooms: (Cell, Cell)) {
    exists i | 0 <= i < 500 ::
      && rooms == draw(i) && FarEnough(draw(i).0, draw(i).1, minDistance)
      && forall j | 0 <= j < i :: !FarEnough(draw(j).0, draw(j).1, minDistance)
  }

  /** The first of up to 500 draws that gives two rooms far enough apart. */
  method GenerateRandomStartEnd(n: nat, minDistance: int, draw: nat -> (Cell, Cell))
    returns (rooms: Option<(Cell, Cell)>)
    requires DrawsRooms(n, draw)
    ensures rooms.None? <==> NoneFits(minDistance, draw)
    ensures rooms.Some? ==> FirstFit(minDistance, draw, rooms.value)
  {
    for attempt := 0 to 500
      invariant forall i | 0 <= i < attempt :: !FarEnough(draw(i).0, draw(i).1, minDistance)
    {
      var (start, goal) := draw(attempt);
      if FarEnough(start, goal, minDistance) {
        return Some((start, goal));
      }
    }
    return None;
  }

  // ---- A whole map ----

  datatype Map = Map(blocked: array2<bool>, start: Cell, goal: Cell, steps: int)

  /** As many rooms as fit with one wall line each, but at least two. */
  function RoomDim(gridDim: nat, k: nat): (n: nat)
    ensures n >= 2 && gridDim < (n + 1) * (k + 1) && (n > 2 ==> n * (k + 1) <= gridDim)
  {
    FullStrips(gridDim, k + 1);
    Max(2, gridDim / (k + 1))
  }

  lemma FullStrips(gridDim: nat, s: nat)
    requires s > 0
    ensures var q := gridDim / s; q * s <= gridDim < (q + 1) * s && (q < 2 ==> gridDim < 3 * s)
  {
    var q := gridDim / s;
    assert gridDim == q * s + gridDim % s;
    if q < 2 {
      assert (q + 1) * s + (2 - q) * s == 3 * s;
    }
  }

  /** The measured length is the distance, or -1 when there is no way. */
  ghost predicate Measured(open: set<Cell>, start: Cell, goal: Cell, steps: int) {
    && (steps >= 0 ==> IsDistance(open, start, goal, steps))
    && (steps < 0 ==> steps == -1 && Unreachable(open, start, goal))
  }

  /** Puts the obstacles, if there are to be any. */
  method PutObstacles(blocked: array2<bool>, n: nat, k: nat, ghost walls: set<Wall>, density: real, roll: Cell -> real,
                      start: Cell, goal: Cell)
    requires k > 0 && Expansion.ShowsOpen(blocked, Expansion.Dimension(n, k), Expansion.OpenGrid(n, k, walls))
    modifies blocked
    ensures Expansion.ShowsOpen(blocked, Expansion.Dimension(n, k),
                                Unobstructed(n, k, walls, start, goal, density, roll))
  {
    ghost var open := Expansion.OpenGrid(n, k, walls);
    if density > 0.0 && k >= 2 {
      AddRoomObstacles(blocked, n, k, open, density, roll, start, goal);
      open := open - AllObstructed(n, k, start, goal, density, roll);
    }
    assert open == Unobstructed(n, k, walls, start, goal, density, roll);
  }

  /** Expands the rooms, puts obstacles and clears start and goal. */
  method PaintGrid(edges: WallEdgeSet, n: nat, k: nat, start: Cell, goal: Cell, density: real, roll: Cell -> real)
    returns (blocked: array2<bool>, dim: nat)
    requires k > 0
    ensures dim == Expansion.Dimension(n, k)
    ensures Expansion.ShowsOpen(blocked, dim, FinalOpen(n, k, edges.walls, start, goal, density, roll))
  {
    blocked, dim := Expansion.EdgesToBlockedGrid(edges, n, k);
    PutObstacles(blocked, n, k, edges.walls, density, roll, start, goal);
    ghost var open := Unobstructed(n, k, edges.walls, start, goal, density, roll);
    ClearBlockedSafeZone(blocked, dim, open, Centre(k, start), 1);
    ghost var cleared := open + Square(dim, Centre(k, start), 1);
    ClearBlockedSafeZone(blocked, dim, cleared, Centre(k, goal), 1);
    assert cleared + Square(dim, Centre(k, goal), 1) == FinalOpen(n, k, edges.walls, start, goal, density, roll);
  }

  /** Paints the grid and measures the way from start to goal on it. */
  method PaintMap(edges: WallEdgeSet, n: nat, k: nat, start: Cell, goal: Cell, density: real, roll: Cell -> real)
    returns (blocked: array2<bool>, steps: int)
    requires k > 0 && InGrid(n, start) && InGrid(n, goal)
    ensures var open := FinalOpen(n, k, edges.walls, start, goal, density, roll);
            && Expansion.ShowsOpen(blocked, Expansion.Dimension(n, k), open)
            && Measured(open, Centre(k, start), Centre(k, goal), steps)
  {
    var dim;
    blocked, dim := PaintGrid(edges, n, k, start, goal, density, roll);
    ghost var open := FinalOpen(n, k, edges.walls, start, goal, density, roll);
    steps := ShortestActionSteps(blocked, dim, open, Centre(k, start), Centre(k, goal));
    CentreIsInRoom(n, k, start);
    CentreIsInRoom(n, k, goal);
    Expansion.PlacesAreInside(n, k, Centre(k, start));
    Expansion.PlacesAreInside(n, k, Centre(k, goal));
  }

  /** Once start and goal room are fixed: open their squares, then paint the map. */
  method BuildMap(edges: WallEdgeSet, n: nat, k: nat, ghost ratio: real, start: Cell, goal: Cell, density: real,
                  roll: Cell -> real)
    returns (blocked: array2<bool>, steps: int)
    requires k > 0 && InGrid(n, start) && InGrid(n, goal) && Kept(n, ratio, edges.walls)
    modifies edges
    ensures Outcome(n, ratio, edges.walls, start, goal)
    ensures var open := FinalOpen(n, k, edges.walls, start, goal, density, roll);
            && Expansion.ShowsOpen(blocked, Expansion.Dimension(n, k), open)
            && Measured(open, Centre(k, start), Centre(k, goal), steps)
  {
    ghost var kept := edges.walls;
    ClearSafeZone(edges, n, start, 1);
    ClearSafeZone(edges, n, goal, 1);
    assert Kept(n, ratio, kept) && edges.walls == kept - WallsNear(n, start, 1) - WallsNear(n, goal, 1);
    blocked, steps := PaintMap(edges, n, k, start, goal, density, roll);
  }

  /** The room pairs of the modes that draw none. */
  function ChosenRooms(n: nat, k: nat, mode: Mode): (rooms: Option<(Cell, Cell)>)
    requires n > 0
    ensures rooms.None? <==> mode.Random?
    ensures rooms.Some? ==> InGrid(n, rooms.value.0) && InGrid(n, rooms.value.1)
  {
    match mode
    case Default => Some((Cell(0, 0), Cell(n - 1, n - 1)))
    case Fixed(start, goal) => Some((RoomOf(n, k, start), RoomOf(n, k, goal)))
    case Random(_) => None
  }

  predicate Suits(n: nat, k: nat, mode: Mode, start: Cell, goal: Cell)
    requires n > 0
  {
    if mode.Random? then FarEnough(start, goal, mode.minDistance) else ChosenRooms(n, k, mode) == Some((start, goal))
  }

  /** No two rooms are far enough apart among those drawn. */
  ghost predicate Undrawn(mode: Mode, draw: nat -> (Cell, Cell)) {
    mode.Random? && NoneFits(mode.minDistance, draw)
  }

  /** The rooms of the mode, or the first of those drawn that fit. */
  ghost predicate Picked(n: nat, k: nat, mode: Mode, draw: nat -> (Cell, Cell), rooms: (Cell, Cell))
    requires n > 0
  {
    && InGrid(n, rooms.0) && InGrid(n, rooms.1)
    && if mode.Random? then FirstFit(mode.minDistance, draw, rooms) else ChosenRooms(n, k, mode) == Some(rooms)
  }

  lemma PickedSuits(n: nat, k: nat, mode: Mode, draw: nat -> (Cell, Cell), rooms: (Cell, Cell))
    requires n > 0 && Picked(n, k, mode, draw, rooms)
    ensures Suits(n, k, mode, rooms.0, rooms.1)
  {
  }

  /** Start and goal room of each mode; drawing them can fail. */
  method ChooseRooms(n: nat, k: nat, mode: Mode, draw: nat -> (Cell, Cell)) returns (rooms: Option<(Cell, Cell)>)
    requires n > 0 && DrawsRooms(n, draw)
    ensures rooms.None? <==> Undrawn(mode, draw)
    ensures rooms.Some? ==> Picked(n, k, mode, draw, rooms.value)
  {
    if mode.Random? {
      rooms := GenerateRandomStartEnd(n, mode.minDistance, draw);
    } else {
      rooms := ChosenRooms(n, k, mode);
    }
  }

  /** What a finished map shows, whatever walls the carving left. */
  ghost predicate Sound(n: nat, k: nat, ratio: real, walls: set<Wall>, density: real, roll: Cell -> real, m: Map)
    requires n > 0
    reads m.blocked
  {
    && InGrid(n, m.start) && InGrid(n, m.goal) && Outcome(n, ratio, walls, m.start, m.goal)
    && var open := FinalOpen(n, k, walls, m.start, m.goal, density, roll);
       && Expansion.ShowsOpen(m.blocked, Expansion.Dimension(n, k), open)
       && Measured(open, Centre(k, m.start), Centre(k, m.goal), m.steps)
  }

  /** Rooms of two cells, every draw below the density, and start and goal too far apart for any door. */
  ghost predicate ShutOff(k: nat, density: real, roll: Cell -> real, start: Cell, goal: Cell) {
    k == 2 && density > 0.0 && (forall c :: roll(c) < density) && Apart(start, goal)
  }

  /** Which rooms a map joins, and what is certain of its length. */
  ghost predicate Judged(n: nat, k: nat, ratio: real, mode: Mode, density: real, roll: Cell -> real, m: Map)
    requires n > 0
  {
    && Suits(n, k, mode, m.start, m.goal)
    && (mode.Default? ==> m.start == Cell(0, 0) && m.goal == Cell(n - 1, n - 1))
    && (m.start == m.goal <==> m.steps == 0)
    && (m.start != m.goal && CannotFail(n, k, ratio, density, m.start, m.goal) ==> m.steps > 0)
    && (ShutOff(k, density, roll, m.start, m.goal) ==> m.steps == -1)
  }

  method GenerateMap(gridDim: nat, k: nat, ratio: real, mode: Mode, density: real, roll: Cell -> real,
                     draw: nat -> (Cell, Cell))
    returns (result: Option<Map>, edges: WallEdgeSet)
    requires k > 0 && DrawsRooms(RoomDim(gridDim, k), draw)
    ensures result.None? <==> Undrawn(mode, draw)
    ensures result.Some? ==>
              var n, m := RoomDim(gridDim, k), result.value;
              && Sound(n, k, ratio, edges.walls, density, roll, m) && Judged(n, k, ratio, mode, density, roll, m)
              && Picked(n, k, mode, draw, (m.start, m.goal))
  {
    var n := RoomDim(gridDim, k);
    edges := GenerateMazeEdges(n);
    ghost var carved := edges.walls;
    ExtraOpenWalls(edges, ratio);
    OpeningKeeps(n, ratio, carved, edges.walls);
    var rooms := ChooseRooms(n, k, mode, draw);
    if rooms.None? {
      return None, edges;
    }
    var (start, goal) := rooms.value;
    var blocked, steps := BuildMap(edges, n, k, ratio, start, goal, density, roll);
    MeasuredIsCertain(n, k, ratio, edges.walls, start, goal, density, roll, steps);
    PickedSuits(n, k, mode, draw, (start, goal));
    result := Some(Map(blocked, start, goal, steps));
  }

  // ---- When every map can be solved ----

  lemma MeasuredPositive(open: set<Cell>, start: Cell, goal: Cell, steps: int)
    requires Measured(open, start, goal, steps) && Connected(open, start, goal) && start != goal
    ensures steps > 0
  {
    var actions :| Reaches(open, start, goal, actions);
    assert forall none | none == [] :: !Reaches(open, start, goal, none);
  }

  lemma SameCell(open: set<Cell>, c: Cell)
    ensures IsDistance(open, c, c, 0)
    ensures forall steps :: Measured(open, c, c, steps) ==> steps == 0
  {
    assert Reaches(open, c, c, []);
  }

  lemma CentresDiffer(k: nat, a: Cell, b: Cell)
    requires a != b
    ensures Centre(k, a) != Centre(k, b)
  {
    if a.x != b.x {
      assert (a.x - b.x) * (k + 1) != 0;
      assert a.x * (k + 1) - b.x * (k + 1) == (a.x - b.x) * (k + 1);
    } else {
      assert (a.y - b.y) * (k + 1) != 0;
      assert a.y * (k + 1) - b.y * (k + 1) == (a.y - b.y) * (k + 1);
    }
  }

  lemma MeasuredIsCertain(n: nat, k: nat, ratio: real, walls: set<Wall>, start: Cell, goal: Cell, density: real,
                          roll: Cell -> real, steps: int)
    requires k > 0 && InGrid(n, start) && InGrid(n, goal) && Outcome(n, ratio, walls, start, goal)
    requires Measured(FinalOpen(n, k, walls, start, goal, density, roll), Centre(k, start), Centre(k, goal), steps)
    ensures start == goal <==> steps == 0
    ensures start != goal && CannotFail(n, k, ratio, density, start, goal) ==> steps > 0
    ensures ShutOff(k, density, roll, start, goal) ==> steps == -1
  {
    var open := FinalOpen(n, k, walls, start, goal, density, roll);
    SameCell(open, Centre(k, start));
    if start != goal {
      CentresDiffer(k, start, goal);
    }
    if start != goal && CannotFail(n, k, ratio, density, start, goal) {
      ReachableUnless(n, k, ratio, walls, start, goal, density, roll);
      MeasuredPositive(open, Centre(k, start), Centre(k, goal), steps);
    }
    if ShutOff(k, density, roll, start, goal) {
      ApartIsSeparated(n, walls, start, goal);
      SeparatedIsUnreachable(n, walls, start, goal, density, roll);
    }
  }

  /** Whatever is carved, opened and drawn, the measured length is positive, which is the test of success. */
  ghost predicate AlwaysSucceeds(n: nat, k: nat, ratio: real, start: Cell, goal: Cell, density: real)
    requires n > 0
  {
    forall walls, roll: Cell -> real, steps
      | && Outcome(n, ratio, walls, start, goal) && Drawn(roll)
        && Measured(FinalOpen(n, k, walls, start, goal, density, roll), Centre(k, start), Centre(k, goal), steps) ::
      steps > 0
  }

  /** A map fails for some random choices when start and goal are one room, and otherwise iff rooms are two cells
      wide, there are obstacles, the cleared squares share no room, and as many walls are left as stand between. */
  lemma SuccessIsCertain(n: nat, k: nat, ratio: real, start: Cell, goal: Cell, density: real)
    requires k > 0 && InGrid(n, start) && InGrid(n, goal)
    ensures AlwaysSucceeds(n, k, ratio, start, goal, density)
            <==> start != goal && CannotFail(n, k, ratio, density, start, goal)
  {
    if start != goal && CannotFail(n, k, ratio, density, start, goal) {
      forall walls, roll: Cell -> real, steps
        | && Outcome(n, ratio, walls, start, goal) && Drawn(roll)
          && Measured(FinalOpen(n, k, walls, start, goal, density, roll), Centre(k, start), Centre(k, goal), steps)
        ensures steps > 0
      {
        MeasuredIsCertain(n, k, ratio, walls, start, goal, density, roll, steps);
      }
    } else {
      var walls, roll, steps := SomeFailure(n, k, ratio, start, goal, density);
    }
  }

  lemma SomeFailure(n: nat, k: nat, ratio: real, start: Cell, goal: Cell, density: real)
    returns (walls: set<Wall>, roll: Cell -> real, steps: int)
    requires InGrid(n, start) && InGrid(n, goal)
    requires start == goal || !CannotFail(n, k, ratio, density, start, goal)
    ensures Outcome(n, ratio, walls, start, goal) && Drawn(roll) && steps <= 0
    ensures Measured(FinalOpen(n, k, walls, start, goal, density, roll), Centre(k, start), Centre(k, goal), steps)
  {
    if start == goal {
      walls := SomeOutcome(n, ratio, start, goal);
      roll, steps := (c: Cell) => 0.0, 0;
      SameCell(FinalOpen(n, k, walls, start, goal, density, roll), Centre(k, start));
    } else {
      walls, roll := FailingChoices(n, k, ratio, start, goal, density);
      steps := -1;
    }
  }

  // ---- Seed after seed ----

  const MAX_RETRY := 100

  /** Rooms of two cells with obstacles, on four rooms and more along each side. */
  predicate Hazardous(gridDim: nat, k: nat, density: real) {
    k == 2 && density > 0.0 && RoomDim(gridDim, k) >= 4
  }

  ghost predicate Solved(gridDim: nat, k: nat, ratio: real, density: real, roll: Cell -> real, m: Map)
    reads m.blocked
  {
    m.steps > 0 && exists walls :: Sound(RoomDim(gridDim, k), k, ratio, walls, density, roll, m)
  }

  lemma OppositeCorners(n: nat, k: nat, ratio: real, density: real)
    requires n >= 2
    ensures CannotFail(n, k, ratio, density, Cell(0, 0), Cell(n - 1, n - 1)) <==> !(k == 2 && density > 0.0 && n >= 4)
    ensures Apart(Cell(0, 0), Cell(n - 1, n - 1)) <==> n >= 4
  {
    if n >= 4 {
      ApartIsSeparated(n, {}, Cell(0, 0), Cell(n - 1, n - 1));
    }
  }

  /** The modes that draw no rooms: the first attempt succeeds whenever it is certain to; when start and goal are one
      room, or are shut off from each other every time, every attempt fails. */
  ghost predicate Foreseen(gridDim: nat, k: nat, ratio: real, mode: Mode, density: real, rolls: nat -> Cell -> real,
                           result: Option<Map>, attempt: nat)
  {
    var n := RoomDim(gridDim, k);
    var rooms := ChosenRooms(n, k, mode);
    rooms.Some? ==>
      var (start, goal) := rooms.value;
      && (start == goal ==> result.None?)
      && (start != goal && CannotFail(n, k, ratio, density, start, goal) ==> result.Some? && attempt == 0)
      && ((forall i :: ShutOff(k, density, rolls(i), start, goal)) ==> result.None?)
  }

  predicate Certain(gridDim: nat, k: nat, ratio: real, mode: Mode, density: real) {
    var n := RoomDim(gridDim, k);
    var rooms := ChosenRooms(n, k, mode);
    && rooms.Some? && rooms.value.0 != rooms.value.1
    && CannotFail(n, k, ratio, density, rooms.value.0, rooms.value.1)
  }

  /** Rooms drawn apart from each other, in a maze that cannot shut them off. */
  predicate Harmless(k: nat, mode: Mode, density: real) {
    mode.Random? && mode.minDistance > 0 && (k != 2 || density <= 0.0)
  }

  /** One attempt: the length it measured on what was carved, opened and drawn, or none without two rooms. */
  ghost predicate Tried(gridDim: nat, k: nat, ratio: real, mode: Mode, density: real, roll: Cell -> real,
                        draw: nat -> (Cell, Cell), length: Option<int>)
  {
    var n := RoomDim(gridDim, k);
    && (length.None? <==> Undrawn(mode, draw))
    && (length.Some? ==>
          exists walls, start, goal ::
            Finished(n, k, ratio, mode, walls, start, goal, density, roll, draw, length.value))
  }

  ghost predicate Finished(n: nat, k: nat, ratio: real, mode: Mode, walls: set<Wall>, start: Cell, goal: Cell,
                           density: real, roll: Cell -> real, draw: nat -> (Cell, Cell), length: int)
    requires n > 0
  {
    && Picked(n, k, mode, draw, (start, goal)) && Outcome(n, ratio, walls, start, goal)
    && Measured(FinalOpen(n, k, walls, start, goal, density, roll), Centre(k, start), Centre(k, goal), length)
  }

  ghost predicate Failed(length: Option<int>) {
    length.Some? ==> length.value <= 0
  }

  lemma SolvedFits(gridDim: nat, k: nat, ratio: real, mode: Mode, density: real, rolls: nat -> Cell -> real, m: Map,
                   attempt: nat)
    requires Judged(RoomDim(gridDim, k), k, ratio, mode, density, rolls(attempt), m) && m.steps > 0
    requires attempt > 0 ==> !Certain(gridDim, k, ratio, mode, density)
    ensures Foreseen(gridDim, k, ratio, mode, density, rolls, Some(m), attempt)
  {
  }

  lemma UnsolvedIsUncertain(gridDim: nat, k: nat, ratio: real, mode: Mode, density: real, roll: Cell -> real, m: Map)
    requires Judged(RoomDim(gridDim, k), k, ratio, mode, density, roll, m) && m.steps <= 0
    ensures !Certain(gridDim, k, ratio, mode, density) && !Harmless(k, mode, density)
  {
  }

  lemma DefaultForeseen(gridDim: nat, k: nat, ratio: real, density: real, rolls: nat -> Cell -> real,
                        result: Option<Map>, attempt: nat)
    requires Foreseen(gridDim, k, ratio, Default, density, rolls, result, attempt)
    ensures !Hazardous(gridDim, k, density) ==> result.Some? && attempt == 0
    ensures Hazardous(gridDim, k, density) && (forall i, c :: rolls(i)(c) < density) ==> result.None?
  {
    OppositeCorners(RoomDim(gridDim, k), k, ratio, density);
  }

  /** Attempt after attempt, and all before `failed` failed; where nothing else can go wrong because no rooms were
      drawn. */
  ghost predicate Trials(gridDim: nat, k: nat, ratio: real, mode: Mode, density: real, rolls: nat -> Cell -> real,
                         draws: nat -> nat -> (Cell, Cell), tried: seq<Option<int>>, failed: nat)
  {
    && failed <= |tried|
    && (forall i | 0 <= i < |tried| :: Tried(gridDim, k, ratio, mode, density, rolls(i), draws(i), tried[i]))
    && (forall i | 0 <= i < failed :: Failed(tried[i]))
    && (Harmless(k, mode, density) ==> forall i | 0 <= i < failed :: tried[i].None?)
  }

  lemma OneMoreTrial(gridDim: nat, k: nat, ratio: real, mode: Mode, density: real, rolls: nat -> Cell -> real,
                     draws: nat -> nat -> (Cell, Cell), tried: seq<Option<int>>, length: Option<int>)
    requires Trials(gridDim, k, ratio, mode, density, rolls, draws, tried, |tried|)
    requires Tried(gridDim, k, ratio, mode, density, rolls(|tried|), draws(|tried|), length)
    ensures Trials(gridDim, k, ratio, mode, density, rolls, draws, tried + [length], |tried|)
    ensures Failed(length) && (Harmless(k, mode, density) ==> length.None?) ==>
              Trials(gridDim, k, ratio, mode, density, rolls, draws, tried + [length], |tried| + 1)
  {
    var longer := tried + [length];
    forall i | 0 <= i < |longer|
      ensures Tried(gridDim, k, ratio, mode, density, rolls(i), draws(i), longer[i])
    {
      assert i < |tried| ==> longer[i] == tried[i];
    }
  }

  /** Tries seed after seed until a map can be solved: `tried` are the lengths measured, and the result is the first
      that is positive. In the default mode the first attempt succeeds, except for obstacles in rooms of two cells when
      there are four rooms and more along each side; then there are draws for which every attempt fails. */
  method GenerateReachableMap(gridDim: nat, k: nat, ratio: real, mode: Mode, density: real,
                              rolls: nat -> Cell -> real, draws: nat -> nat -> (Cell, Cell))
    returns (result: Option<Map>, attempt: nat, ghost tried: seq<Option<int>>)
    requires k > 0 && forall i :: DrawsRooms(RoomDim(gridDim, k), draws(i))
    ensures Trials(gridDim, k, ratio, mode, density, rolls, draws, tried, attempt)
    ensures |tried| == if result.Some? then attempt + 1 else attempt
    ensures result.Some? ==> attempt < MAX_RETRY && Solved(gridDim, k, ratio, density, rolls(attempt), result.value)
    ensures result.Some? ==> tried[attempt] == Some(result.value.steps)
    ensures result.None? ==> attempt == MAX_RETRY
    ensures Foreseen(gridDim, k, ratio, mode, density, rolls, result, attempt)
    ensures mode.Default? && !Hazardous(gridDim, k, density) ==> result.Some? && attempt == 0
    ensures mode.Default? && Hazardous(gridDim, k, density) && (forall i, c :: rolls(i)(c) < density) ==> result.None?
  {
    attempt, tried := 0, [];
    while attempt < MAX_RETRY
      invariant attempt == |tried| <= MAX_RETRY
      invariant Trials(gridDim, k, ratio, mode, density, rolls, draws, tried, attempt)
      invariant attempt > 0 ==> !Certain(gridDim, k, ratio, mode, density)
    {
      var candidate;
      ghost var length;
      candidate, length := Attempt(gridDim, k, ratio, mode, density, rolls(attempt), draws(attempt));
      OneMoreTrial(gridDim, k, ratio, mode, density, rolls, draws, tried, length);
      tried := tried + [length];
      if candidate.Some? && candidate.value.steps > 0 {
        SolvedFits(gridDim, k, ratio, mode, density, rolls, candidate.value, attempt);
        if mode.Default? {
          DefaultForeseen(gridDim, k, ratio, density, rolls, candidate, attempt);
        }
        return candidate, attempt, tried;
      }
      attempt := attempt + 1;
    }
    result := None;
    UnsolvedIsForeseen(gridDim, k, ratio, mode, density, rolls, attempt);
    if mode.Default? {
      DefaultForeseen(gridDim, k, ratio, density, rolls, result, attempt);
    }
  }

  lemma UnsolvedIsForeseen(gridDim: nat, k: nat, ratio: real, mode: Mode, density: real, rolls: nat -> Cell -> real,
                           attempt: nat)
    requires !Certain(gridDim, k, ratio, mode, density)
    ensures Foreseen(gridDim, k, ratio, mode, density, rolls, None, attempt)
  {
  }

  /** One seed. */
  method Attempt(gridDim: nat, k: nat, ratio: real, mode: Mode, density: real, roll: Cell -> real,
                 draw: nat -> (Cell, Cell))
    returns (candidate: Option<Map>, ghost length: Option<int>)
    requires k > 0 && DrawsRooms(RoomDim(gridDim, k), draw)
    ensures length == if candidate.Some? then Some(candidate.value.steps) else None
    ensures Tried(gridDim, k, ratio, mode, density, roll, draw, length)
    ensures candidate.Some? ==> Judged(RoomDim(gridDim, k), k, ratio, mode, density, roll, candidate.value)
    ensures candidate.Some? && candidate.value.steps > 0 ==>
              Solved(gridDim, k, ratio, density, roll, candidate.value)
    ensures candidate.Some? && candidate.value.steps <= 0 ==>
              !Certain(gridDim, k, ratio, mode, density) && !Harmless(k, mode, density)
    ensures candidate.None? ==> mode.Random?
  {
    var edges;
    candidate, edges := GenerateMap(gridDim, k, ratio, mode, density, roll, draw);
    length := None;
    if candidate.Some? {
      var m := candidate.value;
      length := Some(m.steps);
      assert Finished(RoomDim(gridDim, k), k, ratio, mode, edges.walls, m.start, m.goal, density, roll, draw, m.steps);
      if m.steps <= 0 {
        UnsolvedIsUncertain(gridDim, k, ratio, mode, density, roll, m);
      }
    }
  }
}
