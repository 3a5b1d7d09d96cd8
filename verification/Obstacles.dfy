/** The final grid of a generated map, and exactly when its goal can be reached whatever was drawn. */
module Obstacles {
  import opened Moves
  import opened Rooms
  import opened Expansion
  import opened Sparing

  /** Rooms of three cells and more keep a free margin; smaller ones may be blocked entirely. */
  predicate Inner(k: nat, c: Cell)
    requires c.x >= 0 && c.y >= 0
  {
    k >= 3 ==> 1 < Locate(k + 1, c.x).offset < k && 1 < Locate(k + 1, c.y).offset < k
  }

  /** Rooms next to the start or the goal room are never obstructed. */
  predicate Safe(start: Cell, goal: Cell, r: Cell) {
    Near(r, start, 1) || Near(r, goal, 1)
  }

  predicate MayBlock(n: nat, k: nat, start: Cell, goal: Cell, c: Cell) {
    PlaceOf(n, k, c).Room? && !Safe(start, goal, PlaceOf(n, k, c).room) && Inner(k, c)
  }

  /** The cells that obstacles are put on, for the random number drawn at each cell. */
  predicate Obstructed(n: nat, k: nat, start: Cell, goal: Cell, density: real, roll: Cell -> real, c: Cell) {
    density > 0.0 && MayBlock(n, k, start, goal, c) && roll(c) < density
  }

  /** Maps with rooms of one cell get no obstacles. */
  predicate Filled(n: nat, k: nat, start: Cell, goal: Cell, density: real, roll: Cell -> real, c: Cell) {
    k >= 2 && Obstructed(n, k, start, goal, density, roll, c)
  }

  function Centre(k: nat, r: Cell): Cell {
    Cell(r.x * (k + 1) + 1 + k / 2, r.y * (k + 1) + 1 + k / 2)
  }

  predicate Cleared(k: nat, start: Cell, goal: Cell, c: Cell) {
    Near(c, Centre(k, start), 1) || Near(c, Centre(k, goal), 1)
  }

  /** The open cells of the finished map. */
  function FinalOpen(n: nat, k: nat, walls: set<Wall>, start: Cell, goal: Cell, density: real,
                     roll: Cell -> real): (open: set<Cell>)
    ensures forall c :: c in open <==>
              Inside(Dimension(n, k), c)
              && ((Hollow(n, k, walls, c) && !Filled(n, k, start, goal, density, roll, c))
                  || Cleared(k, start, goal, c))
  {
    var dim := Dimension(n, k);
    set x, y | 0 <= x < dim && 0 <= y < dim
               && ((Hollow(n, k, walls, Cell(x, y)) && !Filled(n, k, start, goal, density, roll, Cell(x, y)))
                   || Cleared(k, start, goal, Cell(x, y)))
      :: Cell(x, y)
  }

  /** All rooms are linked and no wall is left in the squares around start and goal. */
  ghost predicate Sheltered(n: nat, walls: set<Wall>, start: Cell, goal: Cell) {
    && walls <= AllWalls(n) && AllLinked(n, walls)
    && walls !! WallsNear(n, start, 1) && walls !! WallsNear(n, goal, 1)
  }

  /** How many walls the extra opening leaves of a carved maze. */
  function WallsKept(n: nat, ratio: real): nat
    requires n > 0
  {
    var carved := (n - 1) * (n - 1);
    carved - Opened(carved, ratio)
  }

  /** The walls that some carving and some extra opening leave. */
  ghost predicate Kept(n: nat, ratio: real, kept: set<Wall>)
    requires n > 0
  {
    exists carved :: CanCarve(n, carved) && kept <= carved && |kept| == WallsKept(n, ratio)
  }

  /** Those of them that the two safe zones leave. */
  ghost predicate Outcome(n: nat, ratio: real, walls: set<Wall>, start: Cell, goal: Cell)
    requires n > 0
  {
    exists kept :: Kept(n, ratio, kept) && walls == kept - WallsNear(n, start, 1) - WallsNear(n, goal, 1)
  }

  lemma OpeningKeeps(n: nat, ratio: real, carved: set<Wall>, kept: set<Wall>)
    requires n > 0 && CanCarve(n, carved) && kept <= carved && |kept| == |carved| - Opened(|carved|, ratio)
    ensures Kept(n, ratio, kept) && kept <= AllWalls(n) && AllLinked(n, kept)
  {
    EveryCarvingIsATree(n, carved);
    OpeningKeepsLinks(n, carved, kept);
  }

  lemma OutcomeIsSheltered(n: nat, ratio: real, walls: set<Wall>, start: Cell, goal: Cell)
    requires n > 0 && Outcome(n, ratio, walls, start, goal)
    ensures Sheltered(n, walls, start, goal)
  {
    var kept :| Kept(n, ratio, kept) && walls == kept - WallsNear(n, start, 1) - WallsNear(n, goal, 1);
    var carved :| CanCarve(n, carved) && kept <= carved && |kept| == WallsKept(n, ratio);
    EveryCarvingIsATree(n, carved);
    OpeningKeepsLinks(n, carved, walls);
  }

  // ---- Obstacles in coordinates ----

  /** Start and goal room are both farther away than the eight rooms around. */
  predicate FarFrom(r: Cell, start: Cell, goal: Cell) {
    && (r.x < start.x - 1 || r.x > start.x + 1 || r.y < start.y - 1 || r.y > start.y + 1)
    && (r.x < goal.x - 1 || r.x > goal.x + 1 || r.y < goal.y - 1 || r.y > goal.y + 1)
  }

  /** Rooms of three cells and more keep their outermost cells, smaller rooms none. */
  predicate MayHold(k: nat, r: Cell, c: Cell) {
    k >= 3 ==>
      && r.x * (k + 1) + 2 <= c.x < r.x * (k + 1) + k
      && r.y * (k + 1) + 2 <= c.y < r.y * (k + 1) + k
  }

  /** Where a coordinate lies in its strip. */
  lemma OffsetInStrip(k: nat, i: nat, v: int)
    requires i * (k + 1) + 1 <= v <= i * (k + 1) + k
    ensures v >= 0 && Locate(k + 1, v) == Position(i, v - i * (k + 1))
  {
    BaseIsProduct(k + 1, i);
    LocateIs(k + 1, i, v - i * (k + 1));
  }

  lemma OffsetInRoom(n: nat, k: nat, r: Cell, c: Cell)
    requires InGrid(n, r) && InRoom(k, r, c)
    ensures PlaceOf(n, k, c) == Room(r)
    ensures Locate(k + 1, c.x).offset == c.x - r.x * (k + 1) && Locate(k + 1, c.y).offset == c.y - r.y * (k + 1)
  {
    OffsetInStrip(k, r.x, c.x);
    OffsetInStrip(k, r.y, c.y);
  }

  /** A cell of a room gets an obstacle iff its draw is below the density, its room is far from start and goal, and
      it is not one of the outermost cells of a big room. */
  lemma ObstructedExactly(n: nat, k: nat, start: Cell, goal: Cell, density: real, roll: Cell -> real, r: Cell, c: Cell)
    requires InGrid(n, r) && InRoom(k, r, c)
    ensures Obstructed(n, k, start, goal, density, roll, c) <==>
              density > 0.0 && roll(c) < density && FarFrom(r, start, goal) && MayHold(k, r, c)
  {
    OffsetInRoom(n, k, r, c);
  }

  /** The cleared cells lie in no room but the start and the goal room. */
  lemma ClearedAtHome(n: nat, k: nat, start: Cell, r: Cell, c: Cell)
    requires k > 0 && InGrid(n, start) && InGrid(n, r) && InRoom(k, r, c) && Near(c, Centre(k, start), 1)
    ensures r == start
  {
    ClearedAxis(k, start.x, r.x, c.x);
    ClearedAxis(k, start.y, r.y, c.y);
  }

  lemma ClearedAxis(k: nat, i: nat, j: nat, v: int)
    requires k > 0
    requires i * (k + 1) + k / 2 <= v <= i * (k + 1) + 2 + k / 2
    requires j * (k + 1) + 1 <= v <= j * (k + 1) + k
    ensures i == j
  {
    BaseIsProduct(k + 1, i);
    BaseIsProduct(k + 1, j);
    if i < j {
      BaseGrows(k + 1, i, j);
    } else if j < i {
      BaseGrows(k + 1, j, i);
    }
  }

  /** The rooms of the finished map: away from start and goal a cell is blocked iff the map has rooms of two cells or
      more, its draw is below a positive density, and it is not one of the outermost cells of a big room. */
  lemma RoomsOfTheMap(n: nat, k: nat, walls: set<Wall>, start: Cell, goal: Cell, density: real, roll: Cell -> real,
                      r: Cell, c: Cell)
    requires k > 0 && InGrid(n, start) && InGrid(n, goal) && InGrid(n, r) && InRoom(k, r, c)
    ensures c !in FinalOpen(n, k, walls, start, goal, density, roll) <==>
              k >= 2 && density > 0.0 && roll(c) < density && FarFrom(r, start, goal) && MayHold(k, r, c)
  {
    OffsetInRoom(n, k, r, c);
    PlacesAreInside(n, k, c);
    ObstructedExactly(n, k, start, goal, density, roll, r, c);
    if Near(c, Centre(k, start), 1) {
      ClearedAtHome(n, k, start, r, c);
    }
    if Near(c, Centre(k, goal), 1) {
      ClearedAtHome(n, k, goal, r, c);
    }
  }

  /** The nine cells around the middle of a room; of an even number of cells in a row the right of the two middle
      ones counts. */
  predicate AroundMiddle(k: nat, r: Cell, c: Cell) {
    && r.x * (k + 1) + k / 2 <= c.x <= r.x * (k + 1) + k / 2 + 2
    && r.y * (k + 1) + k / 2 <= c.y <= r.y * (k + 1) + k / 2 + 2
  }

  lemma ClearedMeans(k: nat, start: Cell, goal: Cell, c: Cell)
    ensures Cleared(k, start, goal, c) <==> AroundMiddle(k, start, c) || AroundMiddle(k, goal, c)
  {
  }

  /** The strips between rooms: open where no wall stands or where start and goal room were cleared. */
  lemma CorridorsOfTheMap(n: nat, k: nat, walls: set<Wall>, start: Cell, goal: Cell, density: real,
                          roll: Cell -> real, w: Wall, c: Cell)
    requires IsWall(n, w) && InGap(k, w, c)
    ensures c in FinalOpen(n, k, walls, start, goal, density, roll) <==>
              w !in walls || AroundMiddle(k, start, c) || AroundMiddle(k, goal, c)
  {
    GapIsCorridor(n, k, w, c);
    PlacesAreInside(n, k, c);
    ClearedMeans(k, start, goal, c);
  }

  lemma GapIsCorridor(n: nat, k: nat, w: Wall, c: Cell)
    requires IsWall(n, w) && InGap(k, w, c)
    ensures PlaceOf(n, k, c) == Corridor(w)
  {
    if w.up {
      UpperIsRect(n, k, w.room);
    } else {
      RightIsRect(n, k, w.room);
    }
  }

  /** Where the wall lines cross, nothing but the clearing opens a cell. */
  lemma CrossingsOfTheMap(n: nat, k: nat, walls: set<Wall>, start: Cell, goal: Cell, density: real,
                          roll: Cell -> real, i: nat, j: nat, c: Cell)
    requires i <= n && j <= n && OnLine(k, i, c.x) && OnLine(k, j, c.y)
    ensures c in FinalOpen(n, k, walls, start, goal, density, roll) <==>
              AroundMiddle(k, start, c) || AroundMiddle(k, goal, c)
  {
    CrossingIsSolid(n, k, i, j, c);
    ClearedMeans(k, start, goal, c);
  }

  lemma CrossingIsSolid(n: nat, k: nat, i: nat, j: nat, c: Cell)
    requires i <= n && j <= n && OnLine(k, i, c.x) && OnLine(k, j, c.y)
    ensures PlaceOf(n, k, c) == Solid && Inside(Dimension(n, k), c)
  {
    BaseIsProduct(k + 1, i);
    BaseIsProduct(k + 1, j);
    PlaceAt(n, k, Position(i, 0), Position(j, 0));
    if i < n {
      BaseGrows(k + 1, i, n);
    }
    if j < n {
      BaseGrows(k + 1, j, n);
    }
  }

  // ---- The goal is reachable ----

  /** With more open cells every connection stays. */
  lemma {:induction false} ConnectedMonotone(open: set<Cell>, more: set<Cell>, c: Cell, actions: seq<int>)
    requires open <= more && c in open && AreActions(actions)
    ensures Walk(open, c, actions) in open && Connected(more, c, Walk(open, c, actions))
  {
    if actions == [] {
      ConnectedSelf(more, c);
    } else {
      var before, a := actions[..|actions| - 1], actions[|actions| - 1];
      ConnectedMonotone(open, more, c, before);
      var mid := Walk(open, c, before);
      if Available(open, mid, a) {
        assert Available(more, mid, a);
        ConnectedByMove(more, mid, a);
        ConnectedIsTransitive(more, c, mid, Go(mid, a));
      }
    }
  }

  lemma CentreIsInRoom(n: nat, k: nat, r: Cell)
    requires k > 0 && InGrid(n, r)
    ensures PlaceOf(n, k, Centre(k, r)) == Room(r)
  {
    BaseIsProduct(k + 1, r.x);
    BaseIsProduct(k + 1, r.y);
    PlaceAt(n, k, Position(r.x, 1 + k / 2), Position(r.y, 1 + k / 2));
  }

  ghost function Unobstructed(n: nat, k: nat, walls: set<Wall>, start: Cell, goal: Cell, density: real,
                              roll: Cell -> real): set<Cell>
  {
    set c | c in OpenGrid(n, k, walls) && !Filled(n, k, start, goal, density, roll, c)
  }

  /** It is enough to connect the corners of the start and the goal room. */
  lemma CentresByCorners(n: nat, k: nat, walls: set<Wall>, start: Cell, goal: Cell, density: real, roll: Cell -> real)
    requires k > 0 && InGrid(n, start) && InGrid(n, goal)
    requires Connected(Unobstructed(n, k, walls, start, goal, density, roll), Corner(k, start), Corner(k, goal))
    ensures Connected(FinalOpen(n, k, walls, start, goal, density, roll), Centre(k, start), Centre(k, goal))
  {
    var open := Unobstructed(n, k, walls, start, goal, density, roll);
    var from, to := Centre(k, start), Centre(k, goal);
    CentreIsInRoom(n, k, start);
    CentreIsInRoom(n, k, goal);
    forall c | PlaceOf(n, k, c) in {Room(start), Room(goal)}
      ensures c in open
    {
      PlacesAreInside(n, k, c);
    }
    CellToCorner(n, k, open, from);
    CellToCorner(n, k, open, to);
    ConnectedIsTransitive(open, from, Corner(k, start), Corner(k, goal));
    ConnectedIsTransitive(open, from, Corner(k, goal), to);
    var actions :| Reaches(open, from, to, actions);
    ConnectedMonotone(open, FinalOpen(n, k, walls, start, goal, density, roll), from, actions);
  }

  /** Obstacles in big rooms never touch the skeleton that joins the rooms. */
  lemma MarginKeepsConnected(n: nat, k: nat, walls: set<Wall>, start: Cell, goal: Cell, density: real,
                             roll: Cell -> real)
    requires k > 0 && (k != 2 || density <= 0.0) && InGrid(n, start) && InGrid(n, goal) && AllLinked(n, walls)
    ensures Connected(FinalOpen(n, k, walls, start, goal, density, roll), Centre(k, start), Centre(k, goal))
  {
    var open := Unobstructed(n, k, walls, start, goal, density, roll);
    assert HasSkeleton(n, k, walls, open);
    LinkedCorners(n, k, walls, open, start, goal);
    CentresByCorners(n, k, walls, start, goal, density, roll);
  }

  // ---- Rooms of two cells: the safe squares have to overlap ----

  predicate Overlapping(start: Cell, goal: Cell) {
    Near(goal, start, 2)
  }

  /** Two neighbouring rooms inside one cleared square stay connected. */
  lemma SafeNeighbours(n: nat, k: nat, walls: set<Wall>, start: Cell, goal: Cell, density: real, roll: Cell -> real,
                       w: Wall)
    requires k > 0 && IsWall(n, w) && Sheltered(n, walls, start, goal)
    requires (Near(w.room, start, 1) && Near(w.Other(), start, 1))
              || (Near(w.room, goal, 1) && Near(w.Other(), goal, 1))
    ensures var open := Unobstructed(n, k, walls, start, goal, density, roll);
            && Connected(open, Corner(k, w.room), Corner(k, w.Other()))
            && Connected(open, Corner(k, w.Other()), Corner(k, w.room))
  {
    assert w in WallsNear(n, start, 1) || w in WallsNear(n, goal, 1);
    CornersByDoor(n, k, walls, Unobstructed(n, k, walls, start, goal, density, roll), w);
  }

  /** Two rooms in one cleared square, in the same row or column. */
  lemma SafeLeg(n: nat, k: nat, walls: set<Wall>, start: Cell, goal: Cell, density: real, roll: Cell -> real, a: Cell,
                b: Cell)
    requires k > 0 && InGrid(n, a) && InGrid(n, b) && (a == b || Adjacent(a, b)) && Sheltered(n, walls, start, goal)
    requires (Near(a, start, 1) && Near(b, start, 1)) || (Near(a, goal, 1) && Near(b, goal, 1))
    ensures Connected(Unobstructed(n, k, walls, start, goal, density, roll), Corner(k, a), Corner(k, b))
  {
    if a == b {
      ConnectedSelf(Unobstructed(n, k, walls, start, goal, density, roll), Corner(k, a));
    } else {
      SafeNeighbours(n, k, walls, start, goal, density, roll, Between(a, b));
    }
  }

  /** From the centre of a cleared square to any room of it. */
  lemma SafeSquare(n: nat, k: nat, walls: set<Wall>, start: Cell, goal: Cell, density: real, roll: Cell -> real,
                   a: Cell, b: Cell)
    requires k > 0 && InGrid(n, start) && InGrid(n, goal) && InGrid(n, a) && InGrid(n, b)
              && Sheltered(n, walls, start, goal)
    requires (a == start && Near(b, start, 1)) || (b == goal && Near(a, goal, 1))
    ensures Connected(Unobstructed(n, k, walls, start, goal, density, roll), Corner(k, a), Corner(k, b))
  {
    var mid := Cell(b.x, a.y);
    SafeLeg(n, k, walls, start, goal, density, roll, a, mid);
    SafeLeg(n, k, walls, start, goal, density, roll, mid, b);
    ConnectedIsTransitive(Unobstructed(n, k, walls, start, goal, density, roll), Corner(k, a), Corner(k, mid),
        Corner(k, b));
  }

  function Towards(a: int, b: int): int {
    if b > a then a + 1 else if b < a then a - 1 else a
  }

  lemma OverlapKeepsConnected(n: nat, k: nat, walls: set<Wall>, start: Cell, goal: Cell, density: real,
                              roll: Cell -> real)
    requires k > 0 && InGrid(n, start) && InGrid(n, goal) && Sheltered(n, walls, start, goal)
              && Overlapping(start, goal)
    ensures Connected(FinalOpen(n, k, walls, start, goal, density, roll), Centre(k, start), Centre(k, goal))
  {
    var mid := Cell(Towards(start.x, goal.x), Towards(start.y, goal.y));
    SafeSquare(n, k, walls, start, goal, density, roll, start, mid);
    SafeSquare(n, k, walls, start, goal, density, roll, mid, goal);
    ConnectedIsTransitive(Unobstructed(n, k, walls, start, goal, density, roll), Corner(k, start), Corner(k, mid),
        Corner(k, goal));
    CentresByCorners(n, k, walls, start, goal, density, roll);
  }

  // ---- Rooms of two cells: otherwise the draw can shut the start in ----

  /** No door leads from the safe square of the start to that of the goal. */
  ghost predicate Separated(n: nat, walls: set<Wall>, start: Cell, goal: Cell) {
    forall a, b | Near(a, start, 1) && Near(b, goal, 1) :: !Door(n, walls, a, b)
  }

  /** The cells of the safe square of the start, with the wall lines around them. */
  predicate ShutIn(start: Cell, c: Cell) {
    3 * (start.x - 1) <= c.x <= 3 * (start.x + 2) && 3 * (start.y - 1) <= c.y <= 3 * (start.y + 2)
  }

  function Third(v: nat): Position {
    Position(v / 3, v % 3)
  }

  lemma Thirds(n: nat, c: Cell)
    requires c.x >= 0 && c.y >= 0
    ensures PlaceOf(n, 2, c) == PlaceFor(n, Third(c.x), Third(c.y))
  {
    BaseIsProduct(3, Locate(3, c.x).room);
    BaseIsProduct(3, Locate(3, c.y).room);
    assert Locate(3, c.x) == Third(c.x) && Locate(3, c.y) == Third(c.y);
  }

  /** With every draw below the density, only safe rooms and corridors are open. */
  lemma OpenCell(n: nat, walls: set<Wall>, start: Cell, goal: Cell, density: real, roll: Cell -> real, c: Cell)
    requires density > 0.0 && (forall d :: roll(d) < density) && InGrid(n, start) && InGrid(n, goal)
    requires c in FinalOpen(n, 2, walls, start, goal, density, roll)
    ensures c.x >= 0 && c.y >= 0
    ensures Near(c, Centre(2, start), 1) || Near(c, Centre(2, goal), 1)
            || (PlaceOf(n, 2, c).Room? && Safe(start, goal, PlaceOf(n, 2, c).room))
            || (PlaceOf(n, 2, c).Corridor? && PlaceOf(n, 2, c).wall !in walls)
  {
  }

  /** A step out of the closed region happens away from both cleared centres. */
  lemma OutsideCentres(start: Cell, goal: Cell, c: Cell, d: Cell)
    requires !Overlapping(start, goal) && ShutIn(start, c) && !ShutIn(start, d) && (Beside(c, d) || Beside(d, c))
    ensures !Near(c, Centre(2, start), 1) && !Near(c, Centre(2, goal), 1)
    ensures !Near(d, Centre(2, start), 1) && !Near(d, Centre(2, goal), 1)
  {
  }

  /** It leads through a wall line, out of a room of the safe square and into a room beyond it. */
  ghost predicate LeavesSquare(start: Cell, p: Place, q: Place, forwards: bool) {
    && (p.Room? ==> q == Solid)
    && (q.Corridor? ==> p == Solid)
    && (q.Room? ==> !Near(q.room, start, 1))
    && (p.Corridor? && q.Room? ==> Near(if forwards then p.wall.room else p.wall.Other(), start, 1))
  }

  lemma ExitSideways(n: nat, start: Cell, c: Cell, d: Cell)
    requires c.x >= 0 && c.y >= 0 && d.x >= 0 && d.y == c.y && (d.x == c.x + 1 || d.x == c.x - 1)
    requires ShutIn(start, c) && !ShutIn(start, d)
    ensures LeavesSquare(start, PlaceFor(n, Third(c.x), Third(c.y)), PlaceFor(n, Third(d.x), Third(d.y)), Beside(c, d))
  {
    var line := if d.x > c.x then start.x + 2 else start.x - 1;
    assert c.x == 3 * line;
    assert Third(c.x) == Position(line, 0);
    assert Third(d.x) == if d.x > c.x then Position(line, 1) else Position(line - 1, 2);
  }

  lemma ExitUpright(n: nat, start: Cell, c: Cell, d: Cell)
    requires c.x >= 0 && c.y >= 0 && d.y >= 0 && d.x == c.x && (d.y == c.y + 1 || d.y == c.y - 1)
    requires ShutIn(start, c) && !ShutIn(start, d)
    ensures LeavesSquare(start, PlaceFor(n, Third(c.x), Third(c.y)), PlaceFor(n, Third(d.x), Third(d.y)), Beside(c, d))
  {
    var line := if d.y > c.y then start.y + 2 else start.y - 1;
    assert c.y == 3 * line;
    assert Third(c.y) == Position(line, 0);
    assert Third(d.y) == if d.y > c.y then Position(line, 1) else Position(line - 1, 2);
  }

  lemma ExitRooms(n: nat, start: Cell, c: Cell, d: Cell)
    requires c.x >= 0 && c.y >= 0 && d.x >= 0 && d.y >= 0
    requires ShutIn(start, c) && !ShutIn(start, d) && (Beside(c, d) || Beside(d, c))
    ensures LeavesSquare(start, PlaceOf(n, 2, c), PlaceOf(n, 2, d), Beside(c, d))
  {
    Thirds(n, c);
    Thirds(n, d);
    if c.y == d.y {
      ExitSideways(n, start, c, d);
    } else {
      ExitUpright(n, start, c, d);
    }
  }

  lemma NoStraightExit(n: nat, walls: set<Wall>, start: Cell, goal: Cell, density: real, roll: Cell -> real, c: Cell,
                       d: Cell)
    requires density > 0.0 && (forall e :: roll(e) < density)
    requires InGrid(n, start) && InGrid(n, goal) && !Overlapping(start, goal) && Separated(n, walls, start, goal)
    requires c in FinalOpen(n, 2, walls, start, goal, density, roll) && ShutIn(start, c)
    requires d in FinalOpen(n, 2, walls, start, goal, density, roll) && (Beside(c, d) || Beside(d, c))
    ensures ShutIn(start, d)
  {
    if !ShutIn(start, d) {
      OpenCell(n, walls, start, goal, density, roll, c);
      OpenCell(n, walls, start, goal, density, roll, d);
      OutsideCentres(start, goal, c, d);
      ExitRooms(n, start, c, d);
      NoSuchDoor(n, walls, start, goal, c, d);
      assert false;
    }
  }

  lemma NoSuchDoor(n: nat, walls: set<Wall>, start: Cell, goal: Cell, c: Cell, d: Cell)
    requires Separated(n, walls, start, goal) && (Beside(c, d) || Beside(d, c))
    requires PlaceOf(n, 2, c).Corridor? && PlaceOf(n, 2, d).Room? && PlaceOf(n, 2, c).wall !in walls
    requires Near(PlaceOf(n, 2, d).room, goal, 1)
    ensures var w := PlaceOf(n, 2, c).wall;
            !Near(if Beside(c, d) then w.room else w.Other(), start, 1)
  {
    var w, room := PlaceOf(n, 2, c).wall, PlaceOf(n, 2, d).room;
    if Beside(c, d) {
      PlaceBeside(n, 2, c, d);
      assert Door(n, walls, w.room, room);
    } else {
      PlaceBeside(n, 2, d, c);
      assert Door(n, walls, w.Other(), room);
    }
  }

  lemma {:induction false} NoWayOut(n: nat, walls: set<Wall>, start: Cell, goal: Cell, density: real,
                                    roll: Cell -> real, actions: seq<int>)
    requires density > 0.0 && (forall d :: roll(d) < density)
    requires InGrid(n, start) && InGrid(n, goal) && !Overlapping(start, goal) && Separated(n, walls, start, goal)
    requires AreActions(actions)
    ensures var open := FinalOpen(n, 2, walls, start, goal, density, roll);
            var c := Walk(open, Centre(2, start), actions);
            c in open && ShutIn(start, c)
  {
    var open := FinalOpen(n, 2, walls, start, goal, density, roll);
    if actions == [] {
      CentreIsInRoom(n, 2, start);
      PlacesAreInside(n, 2, Centre(2, start));
    } else {
      var before, a := actions[..|actions| - 1], actions[|actions| - 1];
      NoWayOut(n, walls, start, goal, density, roll, before);
      var c := Walk(open, Centre(2, start), before);
      if Available(open, c, a) {
        NoExit(n, walls, start, goal, density, roll, c, a);
      }
    }
  }

  lemma NoExit(n: nat, walls: set<Wall>, start: Cell, goal: Cell, density: real, roll: Cell -> real, c: Cell, a: int)
    requires density > 0.0 && (forall d :: roll(d) < density)
    requires InGrid(n, start) && InGrid(n, goal) && !Overlapping(start, goal) && Separated(n, walls, start, goal)
    requires var open := FinalOpen(n, 2, walls, start, goal, density, roll);
             c in open && ShutIn(start, c) && IsAction(a) && Available(open, c, a)
    ensures ShutIn(start, Go(c, a))
  {
    var dx, dy := HalfMoves(FinalOpen(n, 2, walls, start, goal, density, roll), c, a);
    if dx != 0 {
      NoStraightExit(n, walls, start, goal, density, roll, c, Cell(c.x + dx, c.y));
    }
    if dy != 0 {
      NoStraightExit(n, walls, start, goal, density, roll, c, Cell(c.x, c.y + dy));
    }
  }

  lemma SeparatedIsUnreachable(n: nat, walls: set<Wall>, start: Cell, goal: Cell, density: real, roll: Cell -> real)
    requires density > 0.0 && (forall c :: roll(c) < density)
    requires InGrid(n, start) && InGrid(n, goal) && !Overlapping(start, goal) && Separated(n, walls, start, goal)
    ensures Unreachable(FinalOpen(n, 2, walls, start, goal, density, roll), Centre(2, start), Centre(2, goal))
  {
    var open := FinalOpen(n, 2, walls, start, goal, density, roll);
    forall actions | AreActions(actions)
      ensures Walk(open, Centre(2, start), actions) != Centre(2, goal)
    {
      NoWayOut(n, walls, start, goal, density, roll, actions);
    }
  }

  // ---- Walls that separate the two squares and nothing else ----

  /** The walls between a room of one square and a room of the other. */
  function Barrier(n: nat, start: Cell, goal: Cell): set<Wall> {
    set w | w in AllWalls(n)
            && ((Near(w.room, start, 1) && Near(w.Other(), goal, 1))
                || (Near(w.room, goal, 1) && Near(w.Other(), start, 1)))
  }

  lemma BarrierSeparates(n: nat, start: Cell, goal: Cell, walls: set<Wall>)
    requires Barrier(n, start, goal) <= walls
    ensures Separated(n, walls, start, goal)
  {
    forall a, b | Near(a, start, 1) && Near(b, goal, 1)
      ensures !Door(n, walls, a, b)
    {
      if InGrid(n, a) && InGrid(n, b) && Adjacent(a, b) {
        assert Between(a, b) in Barrier(n, start, goal);
      }
    }
  }

  /** The walls between the two squares lie between two strips and spare the first or the last line. */
  lemma BarrierIsGuarded(n: nat, start: Cell, goal: Cell) returns (view: View, a: int)
    requires InGrid(n, start) && InGrid(n, goal) && !Overlapping(start, goal)
    ensures view.n == n && 0 < a && a + 1 < n && Barrier(n, start, goal) <= view.Guard(a)
  {
    var flip := -2 <= goal.x - start.x <= 2;
    var here, there := if flip then start.y else start.x, if flip then goal.y else goal.x;
    var line := if flip then start.x else start.y;
    a := if there == here + 3 then here + 1 else if here == there + 3 then there + 1 else 1;
    view := View(n, flip, line >= n - 2);
    forall w | w in Barrier(n, start, goal)
      ensures w in view.Guard(a)
    {
      var v := if flip then w.room.x else w.room.y;
      var seen := if view.mirror then n - 1 - v else v;
      assert w == Wall(view.At(a, seen), flip) && 0 <= seen < n - 1;
    }
  }

  lemma SubsetBetween<T>(low: set<T>, high: set<T>, k: nat) returns (part: set<T>)
    requires low <= high && |low| <= k <= |high|
    ensures low <= part <= high && |part| == k
  {
    assert high == low + (high - low);
    var more := SubsetOfSize(high - low, k - |low|);
    part := low + more;
  }

  lemma SomeOutcome(n: nat, ratio: real, start: Cell, goal: Cell) returns (walls: set<Wall>)
    requires n > 0
    ensures Outcome(n, ratio, walls, start, goal)
  {
    var carved := SomeCarving(n);
    EveryCarvingIsATree(n, carved);
    var kept := SubsetOfSize(carved, WallsKept(n, ratio));
    assert Kept(n, ratio, kept);
    walls := kept - WallsNear(n, start, 1) - WallsNear(n, goal, 1);
  }

  /** If as many walls as the barrier has are left at all, some choices leave the whole barrier standing. */
  lemma BarrierIsAnOutcome(n: nat, ratio: real, start: Cell, goal: Cell) returns (walls: set<Wall>)
    requires InGrid(n, start) && InGrid(n, goal) && !Overlapping(start, goal)
    requires |Barrier(n, start, goal)| <= WallsKept(n, ratio)
    ensures Outcome(n, ratio, walls, start, goal) && Barrier(n, start, goal) <= walls
  {
    var view, a := BarrierIsGuarded(n, start, goal);
    var carved := SomeCarvingSpares(view, a);
    EveryCarvingIsATree(n, carved);
    var kept := SubsetBetween(Barrier(n, start, goal), carved, WallsKept(n, ratio));
    assert Kept(n, ratio, kept);
    walls := kept - WallsNear(n, start, 1) - WallsNear(n, goal, 1);
  }

  /** If fewer walls are left, some wall between the squares is open. */
  lemma BarrierHasAGap(n: nat, ratio: real, walls: set<Wall>, start: Cell, goal: Cell) returns (w: Wall)
    requires n > 0 && Outcome(n, ratio, walls, start, goal) && WallsKept(n, ratio) < |Barrier(n, start, goal)|
    ensures w in Barrier(n, start, goal) && w !in walls
  {
    var kept :| Kept(n, ratio, kept) && walls == kept - WallsNear(n, start, 1) - WallsNear(n, goal, 1);
    var common := Barrier(n, start, goal) * kept;
    assert kept == common + (kept - common);
    assert common != Barrier(n, start, goal);
    w :| w in Barrier(n, start, goal) && w !in common;
  }

  lemma GapKeepsConnected(n: nat, k: nat, walls: set<Wall>, start: Cell, goal: Cell, density: real,
                          roll: Cell -> real, w: Wall)
    requires k > 0 && InGrid(n, start) && InGrid(n, goal) && Sheltered(n, walls, start, goal)
    requires w in Barrier(n, start, goal) && w !in walls
    ensures Connected(FinalOpen(n, k, walls, start, goal, density, roll), Centre(k, start), Centre(k, goal))
  {
    var open := Unobstructed(n, k, walls, start, goal, density, roll);
    var forwards := Near(w.room, start, 1) && Near(w.Other(), goal, 1);
    var here, there := if forwards then w.room else w.Other(), if forwards then w.Other() else w.room;
    SafeSquare(n, k, walls, start, goal, density, roll, start, here);
    CornersByDoor(n, k, walls, open, w);
    SafeSquare(n, k, walls, start, goal, density, roll, there, goal);
    ConnectedIsTransitive(open, Corner(k, start), Corner(k, here), Corner(k, there));
    ConnectedIsTransitive(open, Corner(k, start), Corner(k, there), Corner(k, goal));
    CentresByCorners(n, k, walls, start, goal, density, roll);
  }

  // ---- Exactly when the generator cannot fail ----

  predicate CannotFail(n: nat, k: nat, ratio: real, density: real, start: Cell, goal: Cell)
    requires n > 0
  {
    || k != 2 || density <= 0.0 || Overlapping(start, goal)
    || WallsKept(n, ratio) < |Barrier(n, start, goal)|
  }

  /** What a random generator draws. */
  ghost predicate Drawn(roll: Cell -> real) {
    forall c :: 0.0 <= roll(c) < 1.0
  }

  ghost predicate AlwaysReachable(n: nat, k: nat, ratio: real, start: Cell, goal: Cell, density: real)
    requires n > 0
  {
    forall walls, roll: Cell -> real | Outcome(n, ratio, walls, start, goal) && Drawn(roll) ::
      Connected(FinalOpen(n, k, walls, start, goal, density, roll), Centre(k, start), Centre(k, goal))
  }

  lemma ReachableUnless(n: nat, k: nat, ratio: real, walls: set<Wall>, start: Cell, goal: Cell, density: real,
                        roll: Cell -> real)
    requires k > 0 && InGrid(n, start) && InGrid(n, goal) && Outcome(n, ratio, walls, start, goal)
    requires CannotFail(n, k, ratio, density, start, goal)
    ensures Connected(FinalOpen(n, k, walls, start, goal, density, roll), Centre(k, start), Centre(k, goal))
  {
    OutcomeIsSheltered(n, ratio, walls, start, goal);
    if k != 2 || density <= 0.0 {
      MarginKeepsConnected(n, k, walls, start, goal, density, roll);
    } else if Overlapping(start, goal) {
      OverlapKeepsConnected(n, k, walls, start, goal, density, roll);
    } else {
      var w := BarrierHasAGap(n, ratio, walls, start, goal);
      GapKeepsConnected(n, k, walls, start, goal, density, roll, w);
    }
  }

  /** Choices that shut the start in, when there are any. */
  lemma FailingChoices(n: nat, k: nat, ratio: real, start: Cell, goal: Cell, density: real)
    returns (walls: set<Wall>, roll: Cell -> real)
    requires InGrid(n, start) && InGrid(n, goal) && !CannotFail(n, k, ratio, density, start, goal)
    ensures Outcome(n, ratio, walls, start, goal) && Drawn(roll)
    ensures Unreachable(FinalOpen(n, k, walls, start, goal, density, roll), Centre(k, start), Centre(k, goal))
  {
    roll := (c: Cell) => 0.0;
    walls := BarrierIsAnOutcome(n, ratio, start, goal);
    BarrierSeparates(n, start, goal, walls);
    SeparatedIsUnreachable(n, walls, start, goal, density, roll);
  }

  /** Whatever the random choices, the goal is reachable: iff rooms are not two cells wide, or there are no
      obstacles, or the cleared squares around start and goal share a room, or fewer walls are left than
      stand between the squares. */
  lemma ReachabilityIsCertain(n: nat, k: nat, ratio: real, start: Cell, goal: Cell, density: real)
    requires k > 0 && InGrid(n, start) && InGrid(n, goal)
    ensures AlwaysReachable(n, k, ratio, start, goal, density) <==> CannotFail(n, k, ratio, density, start, goal)
  {
    if CannotFail(n, k, ratio, density, start, goal) {
      forall walls, roll: Cell -> real | Outcome(n, ratio, walls, start, goal) && Drawn(roll)
        ensures Connected(FinalOpen(n, k, walls, start, goal, density, roll), Centre(k, start), Centre(k, goal))
      {
        ReachableUnless(n, k, ratio, walls, start, goal, density, roll);
      }
    } else {
      var walls, roll := FailingChoices(n, k, ratio, start, goal, density);
      assert Outcome(n, ratio, walls, start, goal) && Drawn(roll)
          && !Connected(FinalOpen(n, k, walls, start, goal, density, roll), Centre(k, start), Centre(k, goal));
    }
  }

  predicate Apart(start: Cell, goal: Cell) {
    !Near(goal, start, 3) || (goal.x - start.x in {-3, 3} && goal.y - start.y in {-3, 3})
  }

  /** Squares that do not even touch are separated by every set of walls: there is nothing to open. */
  lemma ApartIsSeparated(n: nat, walls: set<Wall>, start: Cell, goal: Cell)
    requires Apart(start, goal)
    ensures Separated(n, walls, start, goal) && !Overlapping(start, goal) && Barrier(n, start, goal) == {}
  {
  }

  // ---- The border of the finished map ----

  predicate OnBorder(dim: nat, c: Cell) {
    Inside(dim, c) && (c.x == 0 || c.y == 0 || c.x == dim - 1 || c.y == dim - 1)
  }

  /** Clearing around the centre of this room does not reach the border. */
  predicate KeepsBorder(n: nat, k: nat, r: Cell) {
    k >= 3 || (r.x < n - 1 && r.y < n - 1 && (k == 2 || (r.x > 0 && r.y > 0)))
  }

  /** How far the cleared cells reach along one axis. */
  lemma ClearedRange(n: nat, k: nat, i: nat)
    requires k > 0 && i < n
    ensures var centre := i * (k + 1) + 1 + k / 2;
            && 0 <= centre - 1 && centre + 1 <= Dimension(n, k) - 1
            && (centre - 1 == 0 <==> i == 0 && k == 1)
            && (centre + 1 == Dimension(n, k) - 1 <==> i == n - 1 && k <= 2)
  {
    BaseIsProduct(k + 1, i);
    assert Base(k + 1, n) == Base(k + 1, n - 1) + k + 1;
    if i < n - 1 {
      BaseGrows(k + 1, i, n - 1);
    }
    if i > 0 {
      BaseGrows(k + 1, 0, i);
    }
  }

  lemma ClearedReachesBorder(n: nat, k: nat, r: Cell)
    requires k > 0 && InGrid(n, r)
    ensures KeepsBorder(n, k, r) <==> forall c | OnBorder(Dimension(n, k), c) :: !Near(c, Centre(k, r), 1)
  {
    var dim, centre := Dimension(n, k), Centre(k, r);
    ClearedRange(n, k, r.x);
    ClearedRange(n, k, r.y);
    if !KeepsBorder(n, k, r) {
      var x := if r.x == n - 1 then centre.x + 1 else centre.x - 1;
      var y := if r.y == n - 1 then centre.y + 1 else centre.y - 1;
      var c := Cell(x, y);
      assert OnBorder(dim, c) && Near(c, centre, 1);
    }
  }

  /** The border of the finished map is blocked iff neither clearing reaches it, whatever was drawn. */
  lemma BorderStaysBlocked(n: nat, k: nat, walls: set<Wall>, start: Cell, goal: Cell, density: real, roll: Cell -> real)
    requires k > 0 && InGrid(n, start) && InGrid(n, goal)
    ensures (forall c | OnBorder(Dimension(n, k), c) :: c !in FinalOpen(n, k, walls, start, goal, density, roll))
            <==> KeepsBorder(n, k, start) && KeepsBorder(n, k, goal)
  {
    ClearedReachesBorder(n, k, start);
    ClearedReachesBorder(n, k, goal);
    forall c | OnBorder(Dimension(n, k), c)
      ensures c in FinalOpen(n, k, walls, start, goal, density, roll) <==> Cleared(k, start, goal, c)
    {
      if PlaceOf(n, k, c) != Solid {
        PlacesAreInside(n, k, c);
      }
    }
  }

  /** With start and goal in opposite corners that means rooms of three cells and more. */
  lemma DefaultBorder(n: nat, k: nat)
    requires n >= 2 && k > 0
    ensures KeepsBorder(n, k, Cell(0, 0)) && KeepsBorder(n, k, Cell(n - 1, n - 1)) <==> k >= 3
  {
  }
}
