/** The wall-edge maze of N x N rooms: carving it, opening more walls, and what stays connected. */
module Rooms {
  import opened Moves

  /** The wall between a room and its right (or upper) neighbour. */
  datatype Wall = Wall(room: Cell, up: bool) {
    function Other(): Cell {
      if up then Cell(room.x, room.y + 1) else Cell(room.x + 1, room.y)
    }
  }

  predicate InGrid(n: nat, c: Cell) {
    0 <= c.x < n && 0 <= c.y < n
  }

  predicate Adjacent(a: Cell, b: Cell) {
    || (a.y == b.y && (b.x == a.x + 1 || a.x == b.x + 1))
    || (a.x == b.x && (b.y == a.y + 1 || a.y == b.y + 1))
  }

  /** The unordered pair of two adjacent rooms. */
  function Between(a: Cell, b: Cell): (w: Wall)
    requires Adjacent(a, b)
    ensures (w.room == a && w.Other() == b) || (w.room == b && w.Other() == a)
  {
    if b == Cell(a.x + 1, a.y) then Wall(a, false)
    else if a == Cell(b.x + 1, b.y) then Wall(b, false)
    else if b == Cell(a.x, a.y + 1) then Wall(a, true)
    else Wall(b, true)
  }

  function AllRooms(n: nat): (all: set<Cell>)
    ensures forall c :: c in all <==> InGrid(n, c)
  {
    set x, y | 0 <= x < n && 0 <= y < n :: Cell(x, y)
  }

  predicate IsWall(n: nat, w: Wall) {
    InGrid(n, w.room) && InGrid(n, w.Other())
  }

  function AllWalls(n: nat): (all: set<Wall>)
    ensures forall w :: w in all <==> IsWall(n, w)
  {
    set x, y, up | 0 <= x < n && 0 <= y < n && up in {false, true} && IsWall(n, Wall(Cell(x, y), up)) ::
        Wall(Cell(x, y), up)
  }

  function Row(n: nat, y: int): set<Cell> {
    set x | 0 <= x < n :: Cell(x, y)
  }

  function Rows(n: nat, rows: nat): set<Cell> {
    set x, y | 0 <= x < n && 0 <= y < rows :: Cell(x, y)
  }

  lemma {:induction false} RowCount(n: nat, y: int)
    ensures |Row(n, y)| == n
  {
    if n > 0 {
      RowCount(n - 1, y);
      assert Row(n, y) == Row(n - 1, y) + {Cell(n - 1, y)};
    }
  }

  lemma {:induction false} RowsCount(n: nat, rows: nat)
    ensures |Rows(n, rows)| == n * rows
  {
    if rows > 0 {
      RowsCount(n, rows - 1);
      RowCount(n, rows - 1);
      assert Rows(n, rows) == Rows(n, rows - 1) + Row(n, rows - 1);
      assert n * rows == n * (rows - 1) + n;
    } else {
      assert Rows(n, rows) == {};
    }
  }

  lemma RoomCount(n: nat)
    ensures |AllRooms(n)| == n * n
  {
    RowsCount(n, n);
    assert AllRooms(n) == Rows(n, n);
  }

  // ---- The graph of rooms ----

  /** One step between neighbouring rooms without a wall between them. */
  predicate Door(n: nat, walls: set<Wall>, a: Cell, b: Cell) {
    InGrid(n, a) && InGrid(n, b) && Adjacent(a, b) && Between(a, b) !in walls
  }

  ghost predicate Path(n: nat, walls: set<Wall>, p: seq<Cell>) {
    && p != [] && InGrid(n, p[0])
    && forall k | 0 <= k < |p| - 1 :: Door(n, walls, p[k], p[k + 1])
  }

  ghost predicate Linked(n: nat, walls: set<Wall>, a: Cell, b: Cell) {
    exists p :: Path(n, walls, p) && p[0] == a && p[|p| - 1] == b
  }

  ghost predicate AllLinked(n: nat, walls: set<Wall>) {
    forall a, b | InGrid(n, a) && InGrid(n, b) :: Linked(n, walls, a, b)
  }

  lemma LinkedSelf(n: nat, walls: set<Wall>, a: Cell)
    requires InGrid(n, a)
    ensures Linked(n, walls, a, a)
  {
    assert Path(n, walls, [a]);
  }

  lemma LinkedDoor(n: nat, walls: set<Wall>, a: Cell, b: Cell)
    requires Door(n, walls, a, b)
    ensures Linked(n, walls, a, b)
  {
    assert Path(n, walls, [a, b]) && [a, b][0] == a && [a, b][|[a, b]| - 1] == b;
  }

  lemma LinkedTransitive(n: nat, walls: set<Wall>, a: Cell, b: Cell, c: Cell)
    requires Linked(n, walls, a, b) && Linked(n, walls, b, c)
    ensures Linked(n, walls, a, c)
  {
    var p :| Path(n, walls, p) && p[0] == a && p[|p| - 1] == b;
    var q :| Path(n, walls, q) && q[0] == b && q[|q| - 1] == c;
    var r := p + q[1..];
    forall k | 0 <= k < |r| - 1
      ensures Door(n, walls, r[k], r[k + 1])
    {
      if k >= |p| - 1 {
        assert r[k] == q[k - |p| + 1] && r[k + 1] == q[k - |p| + 2];
      }
    }
    assert Path(n, walls, r) && r[0] == a && r[|r| - 1] == c;
  }

  lemma LinkedSymmetric(n: nat, walls: set<Wall>, a: Cell, b: Cell)
    requires Linked(n, walls, a, b)
    ensures Linked(n, walls, b, a)
  {
    var p :| Path(n, walls, p) && p[0] == a && p[|p| - 1] == b;
    var r := seq(|p|, i requires 0 <= i < |p| => p[|p| - 1 - i]);
    forall k | 0 <= k < |r| - 1
      ensures Door(n, walls, r[k], r[k + 1])
    {
      assert Door(n, walls, p[|p| - 2 - k], p[|p| - 1 - k]);
    }
    PathStays(n, walls, p, |p| - 1);
    assert Path(n, walls, r) && r[0] == b && r[|r| - 1] == a;
  }

  lemma PathStays(n: nat, walls: set<Wall>, p: seq<Cell>, k: nat)
    requires Path(n, walls, p) && k < |p|
    ensures InGrid(n, p[k])
  {
    if k > 0 {
      assert Door(n, walls, p[k - 1], p[k]);
    }
  }

  /** Opening more walls keeps every link. */
  lemma LinkedMonotone(n: nat, walls: set<Wall>, fewer: set<Wall>, a: Cell, b: Cell)
    requires fewer <= walls && Linked(n, walls, a, b)
    ensures Linked(n, fewer, a, b)
  {
    var p :| Path(n, walls, p) && p[0] == a && p[|p| - 1] == b;
    assert Path(n, fewer, p);
  }

  /** A set of rooms no door leads out of contains everything linked to its members. */
  lemma {:induction false} ClosedUnderDoors(n: nat, walls: set<Wall>, s: set<Cell>, p: seq<Cell>)
    requires Path(n, walls, p) && p[0] in s
    requires forall a, b | a in s && Door(n, walls, a, b) :: b in s
    ensures p[|p| - 1] in s
  {
    if |p| > 1 {
      var q := p[..|p| - 1];
      assert Path(n, walls, q);
      ClosedUnderDoors(n, walls, s, q);
      assert Door(n, walls, p[|p| - 2], p[|p| - 1]);
    }
  }

  // ---- A connected maze with as few doors as rooms allow is a tree ----

  function Doors(n: nat, walls: set<Wall>): set<Wall> {
    AllWalls(n) - walls
  }

  function DoorsWithin(n: nat, walls: set<Wall>, s: set<Cell>): set<Wall> {
    set w | w in Doors(n, walls) && w.room in s && w.Other() in s
  }

  lemma CrossingDoor(n: nat, walls: set<Wall>, s: set<Cell>) returns (u: Cell, v: Cell)
    requires AllLinked(n, walls) && s <= AllRooms(n) && s != {} && s != AllRooms(n)
    ensures u in s && v in AllRooms(n) && v !in s && Door(n, walls, u, v)
  {
    var a :| a in s;
    var z :| z in AllRooms(n) && z !in s;
    assert Linked(n, walls, a, z);
    var p :| Path(n, walls, p) && p[0] == a && p[|p| - 1] == z;
    if forall u, v | u in s && Door(n, walls, u, v) :: v in s {
      ClosedUnderDoors(n, walls, s, p);
    }
    u, v :| u in s && Door(n, walls, u, v) && v !in s;
  }

  /** Every room beyond s costs a door that does not lie within s. */
  lemma {:induction false} DoorsBeyond(n: nat, walls: set<Wall>, s: set<Cell>)
    requires AllLinked(n, walls) && s <= AllRooms(n) && s != {}
    ensures |Doors(n, walls) - DoorsWithin(n, walls, s)| >= |AllRooms(n) - s|
    decreases |AllRooms(n) - s|
  {
    if s != AllRooms(n) {
      var u, v := CrossingDoor(n, walls, s);
      var bigger := s + {v};
      assert AllRooms(n) - s == (AllRooms(n) - bigger) + {v};
      DoorsBeyond(n, walls, bigger);
      OneMoreDoor(n, walls, s, v, Between(u, v));
    }
  }

  lemma OneMoreDoor(n: nat, walls: set<Wall>, s: set<Cell>, v: Cell, w: Wall)
    requires w in Doors(n, walls) && v !in s && (w.room == v || w.Other() == v)
    requires w.room in s + {v} && w.Other() in s + {v}
    ensures |Doors(n, walls) - DoorsWithin(n, walls, s)| >= |Doors(n, walls) - DoorsWithin(n, walls, s + {v})| + 1
  {
    var outer, inner := Doors(n, walls) - DoorsWithin(n, walls, s), Doors(n, walls) - DoorsWithin(n, walls, s + {v});
    assert w in outer && w !in inner && inner <= outer;
    assert outer == inner + (outer - inner) && w in outer - inner;
  }

  /** A connected maze has at least one door fewer than rooms. */
  lemma ConnectedNeedsDoors(n: nat, walls: set<Wall>)
    requires n > 0 && AllLinked(n, walls)
    ensures |Doors(n, walls)| + 1 >= |AllRooms(n)|
  {
    var origin := Cell(0, 0);
    DoorsBeyond(n, walls, {origin});
    assert DoorsWithin(n, walls, {origin}) == {};
    assert AllRooms(n) == {origin} + (AllRooms(n) - {origin});
  }

  /** If closing one door leaves its two sides linked, it leaves everything linked. */
  lemma {:induction false} PathAround(n: nat, walls: set<Wall>, w: Wall, p: seq<Cell>)
    requires Path(n, walls, p) && Linked(n, walls + {w}, w.room, w.Other())
    ensures Linked(n, walls + {w}, p[0], p[|p| - 1])
  {
    if |p| == 1 {
      LinkedSelf(n, walls + {w}, p[0]);
    } else {
      var m := |p| - 2;
      var q := p[..m + 1];
      assert Path(n, walls, q);
      PathAround(n, walls, w, q);
      assert Door(n, walls, p[m], p[m + 1]);
      if Between(p[m], p[m + 1]) == w {
        LinkedSymmetric(n, walls + {w}, w.room, w.Other());
      } else {
        LinkedDoor(n, walls + {w}, p[m], p[m + 1]);
      }
      LinkedTransitive(n, walls + {w}, p[0], p[m], p[m + 1]);
    }
  }

  /** A spanning tree: connected, and closing any door separates the rooms on its two sides. */
  ghost predicate SpanningTree(n: nat, walls: set<Wall>) {
    && walls <= AllWalls(n)
    && AllLinked(n, walls)
    && forall w | w in Doors(n, walls) :: !Linked(n, walls + {w}, w.room, w.Other())
  }

  lemma FewDoorsMakeATree(n: nat, walls: set<Wall>)
    requires n > 0 && walls <= AllWalls(n) && AllLinked(n, walls) && |Doors(n, walls)| + 1 == |AllRooms(n)|
    ensures SpanningTree(n, walls)
  {
    forall w | w in Doors(n, walls)
      ensures !Linked(n, walls + {w}, w.room, w.Other())
    {
      if Linked(n, walls + {w}, w.room, w.Other()) {
        assert Doors(n, walls) == Doors(n, walls + {w}) + {w};
        AllLinkedAround(n, walls, w);
        ConnectedNeedsDoors(n, walls + {w});
      }
    }
  }

  lemma AllLinkedAround(n: nat, walls: set<Wall>, w: Wall)
    requires AllLinked(n, walls) && Linked(n, walls + {w}, w.room, w.Other())
    ensures AllLinked(n, walls + {w})
  {
    forall a, b | InGrid(n, a) && InGrid(n, b)
      ensures Linked(n, walls + {w}, a, b)
    {
      assert Linked(n, walls, a, b);
      var p :| Path(n, walls, p) && p[0] == a && p[|p| - 1] == b;
      PathAround(n, walls, w, p);
    }
  }

  // ---- The wall-edge set ----

  class WallEdgeSet {
    const gridDim: nat
    var walls: set<Wall>

    /** Every pair of neighbouring rooms starts with a wall. */
    constructor (n: nat)
      requires n > 0
      ensures gridDim == n && walls == AllWalls(n) && |walls| == 2 * n * (n - 1)
    {
      gridDim := n;
      walls := {};
      new;
      var y := 0;
      while y < n
        invariant 0 <= y <= n && gridDim == n
        invariant walls == WallsBefore(n, 0, y)
      {
        var x := 0;
        while x < n
          invariant 0 <= x <= n && gridDim == n
          invariant walls == WallsBefore(n, x, y)
        {
          NewWalls(n, x, y);
          if x + 1 < n {
            walls := walls + {Between(Cell(x, y), Cell(x + 1, y))};
          }
          if y + 1 < n {
            walls := walls + {Between(Cell(x, y), Cell(x, y + 1))};
          }
          x := x + 1;
        }
        assert WallsBefore(n, n, y) == WallsBefore(n, 0, y + 1);
        y := y + 1;
      }
      WallCount(n);
    }

    predicate HasWall(a: Cell, b: Cell)
      requires Adjacent(a, b)
      reads this
    {
      Between(a, b) in walls
    }

    method RemoveWall(a: Cell, b: Cell)
      requires Adjacent(a, b)
      modifies this
      ensures walls == old(walls) - {Between(a, b)}
    {
      walls := walls - {Between(a, b)};
    }
  }

  /** The walls of the rooms before room (x, y) in row order. */
  ghost function WallsBefore(n: nat, x: int, y: int): set<Wall> {
    set w | w in AllWalls(n) && (w.room.y < y || (w.room.y == y && w.room.x < x))
  }

  lemma NewWalls(n: nat, x: int, y: int)
    requires 0 <= x < n && 0 <= y < n
    ensures var right, up := Wall(Cell(x, y), false), Wall(Cell(x, y), true);
            && WallsBefore(n, x + 1, y)
               == WallsBefore(n, x, y) + (if x + 1 < n then {right} else {}) + (if y + 1 < n then {up} else {})
            && right !in WallsBefore(n, x, y) && up !in WallsBefore(n, x, y)
  {
  }

  lemma NewWallCount(n: nat, x: int, y: int)
    requires 0 <= x < n && 0 <= y < n
    ensures |WallsBefore(n, x + 1, y)| == |WallsBefore(n, x, y)| + (if x + 1 < n then 1 else 0)
              + (if y + 1 < n then 1 else 0)
  {
    NewWalls(n, x, y);
    var before := WallsBefore(n, x, y);
    var right: set<Wall> := if x + 1 < n then {Wall(Cell(x, y), false)} else {};
    var up: set<Wall> := if y + 1 < n then {Wall(Cell(x, y), true)} else {};
    assert before !! right && before + right !! up;
    assert |before + right + up| == |before + right| + |up| == |before| + |right| + |up|;
    assert WallsBefore(n, x + 1, y) == before + right + up;
  }

  lemma {:induction false} RowOfWalls(n: nat, x: nat, y: nat)
    requires x <= n && y < n
    ensures |WallsBefore(n, x, y)| == |WallsBefore(n, 0, y)| + (if x < n then x else n - 1)
              + (if y + 1 < n then x else 0)
  {
    if x > 0 {
      RowOfWalls(n, x - 1, y);
      NewWallCount(n, x - 1, y);
    }
  }

  lemma {:induction false} RowsOfWalls(n: nat, y: nat)
    requires y < n
    ensures |WallsBefore(n, 0, y)| == y * (2 * n - 1)
  {
    if y > 0 {
      RowsOfWalls(n, y - 1);
      RowOfWalls(n, n, y - 1);
      assert WallsBefore(n, 0, y) == WallsBefore(n, n, y - 1);
      assert y * (2 * n - 1) == (y - 1) * (2 * n - 1) + 2 * n - 1;
    } else {
      assert WallsBefore(n, 0, 0) == {};
    }
  }

  lemma Squares(n: int)
    ensures (n - 1) * (n - 1) == n * n - 2 * n + 1
    ensures 2 * n * (n - 1) == 2 * (n * n) - 2 * n
    ensures (n - 1) * (2 * n - 1) + n - 1 == 2 * (n * n) - 2 * n
  {
  }

  lemma WallCount(n: nat)
    requires n > 0
    ensures AllWalls(n) == WallsBefore(n, 0, n) && |AllWalls(n)| == 2 * n * (n - 1)
  {
    RowsOfWalls(n, n - 1);
    RowOfWalls(n, n, n - 1);
    assert AllWalls(n) == WallsBefore(n, 0, n) == WallsBefore(n, n, n - 1);
    Squares(n);
  }

  // ---- Carving ----

  const STEPS: seq<(int, int)> := [(1, 0), (0, 1), (-1, 0), (0, -1)]

  /** The visited rooms are linked with one door fewer than rooms, and all other walls still stand. */
  ghost predicate Grown(n: nat, walls: set<Wall>, visited: set<Cell>) {
    && n > 0 && walls <= AllWalls(n) && visited <= AllRooms(n) && Cell(0, 0) in visited
    && |Doors(n, walls)| + 1 == |visited|
    && (forall w | w in Doors(n, walls) :: w.room in visited && w.Other() in visited)
    && (forall c | c in visited :: Linked(n, walls, Cell(0, 0), c))
  }

  /** A room that left the stack has no unvisited neighbour. */
  ghost predicate Stacked(n: nat, visited: set<Cell>, stack: seq<Cell>) {
    && (forall c | c in stack :: c in visited)
    && forall c, d | c in visited && c !in stack && InGrid(n, d) && Adjacent(c, d) :: d in visited
  }

  /** Between two steps of the depth-first walk. */
  ghost predicate Carving(n: nat, walls: set<Wall>, visited: set<Cell>, stack: seq<Cell>) {
    Grown(n, walls, visited) && Stacked(n, visited, stack)
  }

  lemma Grow(n: nat, walls: set<Wall>, visited: set<Cell>, c: Cell, d: Cell)
    requires Grown(n, walls, visited) && c in visited
    requires InGrid(n, d) && d !in visited && Adjacent(c, d)
    ensures Grown(n, walls - {Between(c, d)}, visited + {d})
  {
    var w := Between(c, d);
    var fewer := walls - {w};
    assert w !in Doors(n, walls);
    assert Doors(n, fewer) == Doors(n, walls) + {w};
    forall e | e in visited + {d}
      ensures Linked(n, fewer, Cell(0, 0), e)
    {
      if e != d {
        LinkedMonotone(n, walls, fewer, Cell(0, 0), e);
      } else {
        LinkedMonotone(n, walls, fewer, Cell(0, 0), c);
        LinkedDoor(n, fewer, c, d);
        LinkedTransitive(n, fewer, Cell(0, 0), c, d);
      }
    }
  }

  /** Breaking through to an unvisited neighbour. */
  lemma CarveOn(n: nat, walls: set<Wall>, visited: set<Cell>, stack: seq<Cell>, c: Cell, d: Cell)
    requires Carving(n, walls, visited, stack) && stack != [] && c == stack[|stack| - 1]
    requires InGrid(n, d) && d !in visited && Adjacent(c, d)
    ensures Carving(n, walls - {Between(c, d)}, visited + {d}, stack + [d])
  {
    assert c in stack;
    Grow(n, walls, visited, c, d);
  }

  /** Backing out of a room without unvisited neighbours. */
  lemma BackOut(n: nat, visited: set<Cell>, stack: seq<Cell>)
    requires Stacked(n, visited, stack) && stack != []
    requires forall d | InGrid(n, d) && Adjacent(stack[|stack| - 1], d) :: d in visited
    ensures Stacked(n, visited, stack[..|stack| - 1])
  {
    var rest, top := stack[..|stack| - 1], stack[|stack| - 1];
    assert stack == rest + [top];
    forall c, d | c in visited && c !in rest && InGrid(n, d) && Adjacent(c, d)
      ensures d in visited
    {
      assert c == top || c !in stack;
    }
  }

  lemma {:induction false} AllVisited(n: nat, walls: set<Wall>, visited: set<Cell>, x: nat, y: nat)
    requires Carving(n, walls, visited, []) && x < n && y < n
    ensures Cell(x, y) in visited
  {
    if x > 0 {
      AllVisited(n, walls, visited, x - 1, y);
      assert Adjacent(Cell(x - 1, y), Cell(x, y));
    } else if y > 0 {
      AllVisited(n, walls, visited, x, y - 1);
      assert Adjacent(Cell(x, y - 1), Cell(x, y));
    }
  }

  lemma CarvedIsTree(n: nat, walls: set<Wall>, visited: set<Cell>)
    requires Carving(n, walls, visited, [])
    ensures SpanningTree(n, walls) && |Doors(n, walls)| == n * n - 1
  {
    forall c | InGrid(n, c)
      ensures c in visited
    {
      AllVisited(n, walls, visited, c.x, c.y);
    }
    assert visited == AllRooms(n);
    RoomCount(n);
    forall a, b | InGrid(n, a) && InGrid(n, b)
      ensures Linked(n, walls, a, b)
    {
      LinkedSymmetric(n, walls, Cell(0, 0), a);
      LinkedTransitive(n, walls, a, Cell(0, 0), b);
    }
    FewDoorsMakeATree(n, walls);
  }

  // ---- Carving as a run ----

  /** The state of the carving loop. */
  datatype Dig = Dig(walls: set<Wall>, visited: set<Cell>, stack: seq<Cell>)

  /** All walls stand and only the first room is visited. */
  function FirstDig(n: nat): Dig {
    Dig(AllWalls(n), {Cell(0, 0)}, [Cell(0, 0)])
  }

  predicate Unvisited(n: nat, visited: set<Cell>, c: Cell, d: Cell) {
    InGrid(n, d) && Adjacent(c, d) && d !in visited
  }

  function Into(s: Dig, c: Cell, d: Cell): Dig
    requires Adjacent(c, d)
  {
    Dig(s.walls - {Between(c, d)}, s.visited + {d}, s.stack + [d])
  }

  /** One turn of the loop: into some unvisited neighbour of the room on top, or back when there is none. */
  ghost predicate Turn(n: nat, s: Dig, t: Dig) {
    && s.stack != []
    && var c := s.stack[|s.stack| - 1];
       || (exists d :: Unvisited(n, s.visited, c, d) && t == Into(s, c, d))
       || ((forall d :: !Unvisited(n, s.visited, c, d)) && t == s.(stack := s.stack[..|s.stack| - 1]))
  }

  ghost predicate LeadsIn(n: nat, s: Dig, t: Dig, turns: nat)
    decreases turns
  {
    if turns == 0 then s == t else exists u :: LeadsIn(n, s, u, turns - 1) && Turn(n, u, t)
  }

  /** The loop can get from one state to the other. */
  ghost predicate Leads(n: nat, s: Dig, t: Dig) {
    exists turns: nat :: LeadsIn(n, s, t, turns)
  }

  /** The walls that some sequence of choices leaves standing. */
  ghost predicate CanCarve(n: nat, walls: set<Wall>) {
    exists visited :: Leads(n, FirstDig(n), Dig(walls, visited, []))
  }

  lemma LeadsNowhere(n: nat, s: Dig)
    ensures Leads(n, s, s)
  {
    assert LeadsIn(n, s, s, 0);
  }

  lemma LeadsOn(n: nat, s: Dig, t: Dig, u: Dig)
    requires Leads(n, s, t) && Turn(n, t, u)
    ensures Leads(n, s, u)
  {
    var turns: nat :| LeadsIn(n, s, t, turns);
    assert LeadsIn(n, s, u, turns + 1);
  }

  lemma IntoKeeps(n: nat, s: Dig, c: Cell, d: Cell)
    requires Carving(n, s.walls, s.visited, s.stack) && s.stack != [] && c == s.stack[|s.stack| - 1]
    requires Unvisited(n, s.visited, c, d)
    ensures var t := Into(s, c, d); Carving(n, t.walls, t.visited, t.stack)
  {
    CarveOn(n, s.walls, s.visited, s.stack, c, d);
  }

  lemma TurnKeeps(n: nat, s: Dig, t: Dig)
    requires Carving(n, s.walls, s.visited, s.stack) && Turn(n, s, t)
    ensures Carving(n, t.walls, t.visited, t.stack)
  {
    var c := s.stack[|s.stack| - 1];
    if forall d :: !Unvisited(n, s.visited, c, d) {
      assert forall d | InGrid(n, d) && Adjacent(c, d) :: !Unvisited(n, s.visited, c, d);
      BackOut(n, s.visited, s.stack);
    } else {
      var d :| Unvisited(n, s.visited, c, d) && t == Into(s, c, d);
      IntoKeeps(n, s, c, d);
    }
  }

  lemma {:induction false} TurnsKeep(n: nat, t: Dig, turns: nat)
    requires n > 0 && LeadsIn(n, FirstDig(n), t, turns)
    ensures Carving(n, t.walls, t.visited, t.stack)
    decreases turns
  {
    if turns == 0 {
      StartCarving(n);
    } else {
      var s :| LeadsIn(n, FirstDig(n), s, turns - 1) && Turn(n, s, t);
      TurnsKeep(n, s, turns - 1);
      TurnKeeps(n, s, t);
    }
  }

  /** Whatever the choices, what is left is a spanning tree with (n - 1) * (n - 1) walls. */
  lemma EveryCarvingIsATree(n: nat, walls: set<Wall>)
    requires n > 0 && CanCarve(n, walls)
    ensures SpanningTree(n, walls) && |walls| == (n - 1) * (n - 1)
  {
    var visited :| Leads(n, FirstDig(n), Dig(walls, visited, []));
    var turns: nat :| LeadsIn(n, FirstDig(n), Dig(walls, visited, []), turns);
    TurnsKeep(n, Dig(walls, visited, []), turns);
    CarvedIsTree(n, walls, visited);
    WallsLeft(n, walls);
  }

  ghost predicate Shows(n: nat, visited: array2<bool>, seen: set<Cell>)
    reads visited
  {
    && visited.Length0 == visited.Length1 == n
    && forall x, y {:trigger visited[y, x]} | 0 <= x < n && 0 <= y < n :: visited[y, x] <==> Cell(x, y) in seen
  }

  /** The unvisited neighbours of a room, in the order the directions are tried. */
  method UnvisitedNeighbours(n: nat, visited: array2<bool>, ghost seen: set<Cell>, c: Cell)
    returns (neighbours: seq<Cell>)
    requires Shows(n, visited, seen)
    ensures forall d :: d in neighbours <==> InGrid(n, d) && Adjacent(c, d) && d !in seen
  {
    neighbours := [];
    for k := 0 to 4
      invariant forall d :: d in neighbours <==>
                  InGrid(n, d) && d !in seen && exists j | 0 <= j < k :: d == Cell(c.x + STEPS[j].0, c.y + STEPS[j].1)
    {
      var (dx, dy) := STEPS[k];
      var d := Cell(c.x + dx, c.y + dy);
      if 0 <= d.x < n && 0 <= d.y < n && !visited[d.y, d.x] {
        neighbours := neighbours + [d];
      }
    }
    forall d | Adjacent(c, d)
      ensures exists j | 0 <= j < 4 :: d == Cell(c.x + STEPS[j].0, c.y + STEPS[j].1)
    {
      var j := if d.x == c.x + 1 then 0 else if d.y == c.y + 1 then 1 else if d.x == c.x - 1 then 2 else 3;
      assert d == Cell(c.x + STEPS[j].0, c.y + STEPS[j].1);
    }
  }

  method Mark(n: nat, visited: array2<bool>, ghost seen: set<Cell>, d: Cell)
    requires Shows(n, visited, seen) && InGrid(n, d)
    modifies visited
    ensures Shows(n, visited, seen + {d})
  {
    visited[d.y, d.x] := true;
  }

  /** One turn of the carving loop: break through to a randomly chosen unvisited neighbour of the room on
      top of the stack, or back out of it. */
  method CarveStep(n: nat, edges: WallEdgeSet, visited: array2<bool>, stack: seq<Cell>, ghost seen: set<Cell>)
    returns (rest: seq<Cell>, ghost now: set<Cell>)
    requires stack != [] && Shows(n, visited, seen)
    modifies edges, visited
    ensures Turn(n, Dig(old(edges.walls), seen, stack), Dig(edges.walls, now, rest)) && Shows(n, visited, now)
    ensures (now == seen && |rest| < |stack|) || |AllRooms(n) - now| < |AllRooms(n) - seen|
  {
    var c := stack[|stack| - 1];
    var neighbours := UnvisitedNeighbours(n, visited, seen, c);
    if neighbours == [] {
      assert forall d :: Unvisited(n, seen, c, d) ==> d in neighbours;
      return stack[..|stack| - 1], seen;
    }
    var choice :| 0 <= choice < |neighbours|;
    var d := neighbours[choice];
    assert d in neighbours && Unvisited(n, seen, c, d);
    FewerLeft(n, seen, d);
    Mark(n, visited, seen, d);
    edges.RemoveWall(c, d);
    return stack + [d], seen + {d};
  }

  /** Depth-first carving. Whatever the random choices, it ends with a spanning tree of all rooms and
      leaves (N - 1) * (N - 1) walls. */
  method GenerateMazeEdges(n: nat) returns (edges: WallEdgeSet)
    requires n > 0
    ensures fresh(edges) && edges.gridDim == n
    ensures CanCarve(n, edges.walls)
    ensures SpanningTree(n, edges.walls) && |edges.walls| == (n - 1) * (n - 1)
  {
    edges := new WallEdgeSet(n);
    var visited := new bool[n, n]((_, _) => false);
    ghost var seen := {};
    Mark(n, visited, seen, Cell(0, 0));
    seen := seen + {Cell(0, 0)};
    var stack := [Cell(0, 0)];
    LeadsNowhere(n, FirstDig(n));
    while stack != []
      invariant fresh(edges) && fresh(visited) && edges.gridDim == n
      invariant Leads(n, FirstDig(n), Dig(edges.walls, seen, stack))
      invariant Shows(n, visited, seen)
      decreases |AllRooms(n) - seen|, |stack|
    {
      ghost var before := Dig(edges.walls, seen, stack);
      stack, seen := CarveStep(n, edges, visited, stack, seen);
      LeadsOn(n, FirstDig(n), before, Dig(edges.walls, seen, stack));
    }
    EveryCarvingIsATree(n, edges.walls);
  }

  lemma StartCarving(n: nat)
    requires n > 0
    ensures Carving(n, AllWalls(n), {Cell(0, 0)}, [Cell(0, 0)])
  {
    assert Doors(n, AllWalls(n)) == {};
    LinkedSelf(n, AllWalls(n), Cell(0, 0));
  }

  lemma FewerLeft(n: nat, seen: set<Cell>, d: Cell)
    requires InGrid(n, d) && d !in seen
    ensures |AllRooms(n) - (seen + {d})| < |AllRooms(n) - seen|
  {
    assert AllRooms(n) - seen == (AllRooms(n) - (seen + {d})) + {d};
  }

  lemma WallsLeft(n: nat, walls: set<Wall>)
    requires n > 0 && walls <= AllWalls(n) && |Doors(n, walls)| == n * n - 1
    ensures |walls| == (n - 1) * (n - 1)
  {
    WallCount(n);
    assert AllWalls(n) == walls + Doors(n, walls);
    assert |AllWalls(n)| == |walls| + |Doors(n, walls)|;
    Squares(n);
  }

  // ---- Opening more walls ----

  lemma OpeningKeepsLinks(n: nat, walls: set<Wall>, fewer: set<Wall>)
    requires fewer <= walls && AllLinked(n, walls)
    ensures AllLinked(n, fewer)
  {
    forall a, b | InGrid(n, a) && InGrid(n, b)
      ensures Linked(n, fewer, a, b)
    {
      LinkedMonotone(n, walls, fewer, a, b);
    }
  }

  /** Python's int(): truncation towards zero. */
  function Truncated(x: real): (k: int)
    ensures x >= 0.0 ==> k as real <= x < (k + 1) as real
    ensures x < 0.0 ==> (k - 1) as real < x <= k as real
  {
    if x < 0.0 then -((-x).Floor) else x.Floor
  }

  /** How many of `count` walls a ratio asks to open: the product truncated, from none up to all. */
  function Opened(count: nat, ratio: real): (k: nat)
    ensures k <= count && (ratio <= 0.0 ==> k == 0) && (ratio >= 1.0 ==> k == count)
    ensures 0.0 < ratio < 1.0 ==> k as real <= count as real * ratio < (k + 1) as real
  {
    var asked := Truncated(count as real * ratio);
    AskedInRange(count, ratio);
    if asked > 0 then Min(asked, count) else 0
  }

  lemma AskedInRange(count: nat, ratio: real)
    ensures ratio <= 0.0 ==> Truncated(count as real * ratio) <= 0
    ensures ratio >= 1.0 ==> Truncated(count as real * ratio) >= count
    ensures 0.0 < ratio < 1.0 ==> 0 <= Truncated(count as real * ratio) <= count
  {
    if ratio >= 1.0 {
      Scaled(count, ratio);
    } else if ratio > 0.0 {
      Shrunk(count, ratio);
    } else {
      NotPositive(count, ratio);
    }
  }

  lemma NotPositive(count: nat, ratio: real)
    requires ratio <= 0.0
    ensures count as real * ratio <= 0.0
  {
    assert count as real * -ratio >= 0.0;
  }

  lemma Scaled(count: nat, ratio: real)
    requires ratio >= 1.0
    ensures count as real * ratio >= count as real
  {
    assert count as real * (ratio - 1.0) >= 0.0;
  }

  lemma Shrunk(count: nat, ratio: real)
    requires 0.0 < ratio < 1.0
    ensures 0.0 <= count as real * ratio <= count as real
  {
    assert count as real * (1.0 - ratio) >= 0.0;
  }

  lemma {:induction false} SubsetOfSize<T>(s: set<T>, k: nat) returns (part: set<T>)
    requires k <= |s|
    ensures part <= s && |part| == k
  {
    if k == |s| {
      part := s;
    } else {
      var x :| x in s;
      part := SubsetOfSize(s - {x}, k);
    }
  }

  /** Opens a random sample of the remaining walls. */
  method ExtraOpenWalls(edges: WallEdgeSet, ratio: real)
    modifies edges
    ensures edges.walls <= old(edges.walls)
    ensures |edges.walls| == |old(edges.walls)| - Opened(|old(edges.walls)|, ratio)
    ensures AllLinked(edges.gridDim, old(edges.walls)) ==> AllLinked(edges.gridDim, edges.walls)
  {
    var remaining := edges.walls;
    var count := Opened(|remaining|, ratio);
    if count > 0 {
      ghost var some := SubsetOfSize(remaining, count);
      var sample :| sample <= remaining && |sample| == count;
      assert remaining == (remaining - sample) + sample;
      edges.walls := remaining - sample;
    }
    if AllLinked(edges.gridDim, remaining) {
      OpeningKeepsLinks(edges.gridDim, remaining, edges.walls);
    }
  }

  predicate Near(c: Cell, centre: Cell, radius: nat) {
    centre.x - radius <= c.x <= centre.x + radius && centre.y - radius <= c.y <= centre.y + radius
  }

  /** The walls with both sides in the square around the centre. */
  function WallsNear(n: nat, centre: Cell, radius: nat): set<Wall> {
    set w | w in AllWalls(n) && Near(w.room, centre, radius) && Near(w.Other(), centre, radius)
  }

  /** Those of them whose first room comes before room (x, y) in row order. */
  ghost function NearBefore(n: nat, centre: Cell, radius: nat, x: int, y: int): set<Wall> {
    set w | w in WallsNear(n, centre, radius) && (w.room.y < y || (w.room.y == y && w.room.x < x))
  }

  function Max(a: int, b: int): int { if a > b then a else b }
  function Min(a: int, b: int): int { if a < b then a else b }

  /** Opens exactly the walls inside the square of the radius around a room. */
  method ClearSafeZone(edges: WallEdgeSet, n: nat, centre: Cell, radius: nat)
    requires InGrid(n, centre)
    modifies edges
    ensures edges.walls == old(edges.walls) - WallsNear(n, centre, radius)
    ensures AllLinked(n, old(edges.walls)) ==> AllLinked(n, edges.walls)
  {
    var left, right := Max(0, centre.x - radius), Min(n, centre.x + radius + 1);
    var bottom, top := Max(0, centre.y - radius), Min(n, centre.y + radius + 1);
    ghost var before := edges.walls;
    for y := bottom to top
      invariant edges.walls == before - NearBefore(n, centre, radius, left, y)
    {
      for x := left to right
        invariant edges.walls == before - NearBefore(n, centre, radius, x, y)
      {
        NearStep(n, centre, radius, x, y);
        if x + 1 < n && x + 1 <= centre.x + radius {
          edges.RemoveWall(Cell(x, y), Cell(x + 1, y));
        }
        if y + 1 < n && y + 1 <= centre.y + radius {
          edges.RemoveWall(Cell(x, y), Cell(x, y + 1));
        }
      }
      assert NearBefore(n, centre, radius, right, y) == NearBefore(n, centre, radius, left, y + 1);
    }
    assert NearBefore(n, centre, radius, left, top) == WallsNear(n, centre, radius);
    if AllLinked(n, before) {
      OpeningKeepsLinks(n, before, edges.walls);
    }
  }

  lemma NearStep(n: nat, centre: Cell, radius: nat, x: int, y: int)
    requires InGrid(n, Cell(x, y)) && Near(Cell(x, y), centre, radius)
    ensures NearBefore(n, centre, radius, x + 1, y)
            == NearBefore(n, centre, radius, x, y)
               + (if x + 1 < n && x + 1 <= centre.x + radius then {Wall(Cell(x, y), false)} else {})
               + (if y + 1 < n && y + 1 <= centre.y + radius then {Wall(Cell(x, y), true)} else {})
  {
  }
}
