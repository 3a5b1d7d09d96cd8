/** Rooms and corridors: how the wall-edge maze becomes a grid of cells, and why that keeps connectivity. */
module Expansion {
  import opened Moves
  import opened Rooms

  // ---- Coordinates along one axis ----

  /** Coordinate v lies `offset` cells after the start of strip `room`; offset 0 is the wall line. */
  datatype Position = Position(room: nat, offset: nat)

  function Base(s: nat, room: nat): (v: nat) {
    if room == 0 then 0 else Base(s, room - 1) + s
  }

  function Locate(s: nat, v: nat): (p: Position)
    requires s > 0
    ensures p.offset < s && v == Base(s, p.room) + p.offset
  {
    if v < s then Position(0, v)
    else var p := Locate(s, v - s); Position(p.room + 1, p.offset)
  }

  lemma {:induction false} BaseIsProduct(s: nat, room: nat)
    ensures Base(s, room) == room * s
  {
    if room > 0 {
      BaseIsProduct(s, room - 1);
      assert room * s == (room - 1) * s + s;
    }
  }

  lemma {:induction false} LocateIs(s: nat, room: nat, offset: nat)
    requires offset < s
    ensures Locate(s, Base(s, room) + offset) == Position(room, offset)
  {
    if room > 0 {
      LocateIs(s, room - 1, offset);
    }
  }

  lemma {:induction false} BaseGrows(s: nat, a: nat, b: nat)
    requires a < b
    ensures Base(s, a) + s <= Base(s, b)
  {
    if a < b - 1 {
      BaseGrows(s, a, b - 1);
    }
  }

  lemma LocateNext(s: nat, v: nat)
    requires s > 0
    ensures var p := Locate(s, v);
            Locate(s, v + 1) == if p.offset + 1 < s then Position(p.room, p.offset + 1) else Position(p.room + 1, 0)
  {
    var p := Locate(s, v);
    if p.offset + 1 < s {
      LocateIs(s, p.room, p.offset + 1);
    } else {
      LocateIs(s, p.room + 1, 0);
    }
  }

  lemma LocateBelow(s: nat, v: nat, n: nat)
    requires s > 0
    ensures v < Base(s, n) <==> Locate(s, v).room < n
    ensures v == Base(s, n) <==> Locate(s, v) == Position(n, 0)
  {
    var p := Locate(s, v);
    LocateIs(s, n, 0);
    if p.room < n {
      BaseGrows(s, p.room, n);
    } else if p.room > n {
      BaseGrows(s, n, p.room);
    }
  }

  // ---- Cells ----

  datatype Place = Room(room: Cell) | Corridor(wall: Wall) | Solid

  /** What the cell at these positions belongs to: a room, the gap in a wall between two rooms, or solid wall. */
  function PlaceFor(n: nat, px: Position, py: Position): Place {
    if px.room < n && py.room < n && px.offset > 0 && py.offset > 0 then Room(Cell(px.room, py.room))
    else if 0 < px.room < n && py.room < n && px.offset == 0 && py.offset > 0 then
      Corridor(Wall(Cell(px.room - 1, py.room), false))
    else if px.room < n && 0 < py.room < n && px.offset > 0 && py.offset == 0 then
      Corridor(Wall(Cell(px.room, py.room - 1), true))
    else Solid
  }

  function PlaceOf(n: nat, k: nat, c: Cell): Place {
    if c.x < 0 || c.y < 0 then Solid else PlaceFor(n, Locate(k + 1, c.x), Locate(k + 1, c.y))
  }

  function CellAt(k: nat, px: Position, py: Position): Cell {
    Cell(Base(k + 1, px.room) + px.offset, Base(k + 1, py.room) + py.offset)
  }

  lemma PlaceAt(n: nat, k: nat, px: Position, py: Position)
    requires px.offset <= k && py.offset <= k
    ensures PlaceOf(n, k, CellAt(k, px, py)) == PlaceFor(n, px, py)
    ensures OnRing(k, CellAt(k, px, py)) <==> px.offset == 1 || py.offset == 1
  {
    LocateIs(k + 1, px.room, px.offset);
    LocateIs(k + 1, py.room, py.offset);
  }

  function Dimension(n: nat, k: nat): nat {
    Base(k + 1, n) + 1
  }

  predicate Inside(dim: nat, c: Cell) {
    0 <= c.x < dim && 0 <= c.y < dim
  }

  predicate Hollow(n: nat, k: nat, walls: set<Wall>, c: Cell) {
    match PlaceOf(n, k, c)
    case Room(_) => true
    case Corridor(w) => w !in walls
    case Solid => false
  }

  /** The open cells of the expanded grid. */
  function OpenGrid(n: nat, k: nat, walls: set<Wall>): (open: set<Cell>)
    ensures forall c :: c in open <==> Inside(Dimension(n, k), c) && Hollow(n, k, walls, c)
  {
    var dim := Dimension(n, k);
    set x, y | 0 <= x < dim && 0 <= y < dim && Hollow(n, k, walls, Cell(x, y)) :: Cell(x, y)
  }

  /** Rooms and corridors lie strictly inside the border. */
  lemma PlacesAreInside(n: nat, k: nat, c: Cell)
    requires PlaceOf(n, k, c) != Solid
    ensures 0 < c.x < Dimension(n, k) - 1 && 0 < c.y < Dimension(n, k) - 1
  {
    LocateBelow(k + 1, c.x, n);
    LocateBelow(k + 1, c.y, n);
  }

  lemma BorderIsBlocked(n: nat, k: nat, walls: set<Wall>, c: Cell)
    requires c in OpenGrid(n, k, walls)
    ensures 0 < c.x < Dimension(n, k) - 1 && 0 < c.y < Dimension(n, k) - 1
  {
    PlacesAreInside(n, k, c);
  }

  // ---- From cells to rooms ----

  /** The room a cell is accounted to. */
  function Home(n: nat, k: nat, c: Cell): Cell
    requires PlaceOf(n, k, c) != Solid
  {
    match PlaceOf(n, k, c)
    case Room(r) => r
    case Corridor(w) => w.room
  }

  /** Two cells one step apart along an axis, in increasing order. */
  predicate Beside(c: Cell, d: Cell) {
    (d.x == c.x + 1 && d.y == c.y) || (d.x == c.x && d.y == c.y + 1)
  }

  /** Neighbouring cells are in one place, or lead from a room into a corridor of it or out of one. */
  ghost predicate Adjoining(n: nat, p: Place, q: Place) {
    && (|| p == q
        || (p.Room? && q.Corridor? && q.wall.room == p.room)
        || (p.Corridor? && q.Room? && p.wall.Other() == q.room))
    && (p.Corridor? ==> IsWall(n, p.wall))
    && (q.Corridor? ==> IsWall(n, q.wall))
  }

  lemma PlaceToTheRight(n: nat, k: nat, c: Cell)
    requires PlaceOf(n, k, c) != Solid && PlaceOf(n, k, Cell(c.x + 1, c.y)) != Solid
    ensures Adjoining(n, PlaceOf(n, k, c), PlaceOf(n, k, Cell(c.x + 1, c.y)))
  {
    LocateNext(k + 1, c.x);
  }

  lemma PlaceAbove(n: nat, k: nat, c: Cell)
    requires PlaceOf(n, k, c) != Solid && PlaceOf(n, k, Cell(c.x, c.y + 1)) != Solid
    ensures Adjoining(n, PlaceOf(n, k, c), PlaceOf(n, k, Cell(c.x, c.y + 1)))
  {
    LocateNext(k + 1, c.y);
  }

  lemma PlaceBeside(n: nat, k: nat, c: Cell, d: Cell)
    requires Beside(c, d) && PlaceOf(n, k, c) != Solid && PlaceOf(n, k, d) != Solid
    ensures Adjoining(n, PlaceOf(n, k, c), PlaceOf(n, k, d))
  {
    if d.x == c.x + 1 {
      PlaceToTheRight(n, k, c);
    } else {
      PlaceAbove(n, k, c);
    }
  }

  lemma StraightStep(n: nat, k: nat, walls: set<Wall>, c: Cell, d: Cell)
    requires Beside(c, d) && Hollow(n, k, walls, c) && Hollow(n, k, walls, d)
    ensures Linked(n, walls, Home(n, k, c), Home(n, k, d))
  {
    PlaceBeside(n, k, c, d);
    var p := PlaceOf(n, k, c);
    if p.Corridor? && PlaceOf(n, k, d).Room? {
      assert Door(n, walls, p.wall.room, p.wall.Other());
      LinkedDoor(n, walls, p.wall.room, p.wall.Other());
    } else {
      LinkedSelf(n, walls, Home(n, k, c));
    }
  }

  lemma StraightSteps(n: nat, k: nat, walls: set<Wall>, c: Cell, d: Cell)
    requires (Beside(c, d) || Beside(d, c)) && Hollow(n, k, walls, c) && Hollow(n, k, walls, d)
    ensures Linked(n, walls, Home(n, k, c), Home(n, k, d))
  {
    if Beside(c, d) {
      StraightStep(n, k, walls, c, d);
    } else {
      StraightStep(n, k, walls, d, c);
      LinkedSymmetric(n, walls, Home(n, k, d), Home(n, k, c));
    }
  }

  lemma DiagonalStep(n: nat, k: nat, walls: set<Wall>, c: Cell, corner: Cell, d: Cell)
    requires (Beside(c, corner) || Beside(corner, c)) && (Beside(corner, d) || Beside(d, corner))
    requires Hollow(n, k, walls, c) && Hollow(n, k, walls, corner) && Hollow(n, k, walls, d)
    ensures Linked(n, walls, Home(n, k, c), Home(n, k, d))
  {
    StraightSteps(n, k, walls, c, corner);
    StraightSteps(n, k, walls, corner, d);
    LinkedTransitive(n, walls, Home(n, k, c), Home(n, k, corner), Home(n, k, d));
  }

  lemma StayingPut(n: nat, k: nat, walls: set<Wall>, c: Cell)
    requires PlaceOf(n, k, c) != Solid
    ensures Linked(n, walls, Home(n, k, c), Home(n, k, c))
  {
    HomeInGrid(n, k, c);
    LinkedSelf(n, walls, Home(n, k, c));
  }

  /** A diagonal move is two straight ones, because corners may not be cut. */
  lemma MoveKeepsRooms(n: nat, k: nat, walls: set<Wall>, c: Cell, a: int)
    requires c in OpenGrid(n, k, walls) && IsAction(a) && Available(OpenGrid(n, k, walls), c, a)
    ensures Linked(n, walls, Home(n, k, c), Home(n, k, Go(c, a)))
  {
    var dx, dy := HalfMoves(OpenGrid(n, k, walls), c, a);
    var d := Cell(c.x + dx, c.y + dy);
    assert d == Go(c, a) && Hollow(n, k, walls, d) && Hollow(n, k, walls, c);
    if dx == 0 && dy == 0 {
      StayingPut(n, k, walls, c);
    } else if dx == 0 || dy == 0 {
      StraightSteps(n, k, walls, c, d);
    } else {
      DiagonalStep(n, k, walls, c, Cell(c.x + dx, c.y), d);
    }
  }

  lemma HomeInGrid(n: nat, k: nat, c: Cell)
    requires PlaceOf(n, k, c) != Solid
    ensures InGrid(n, Home(n, k, c))
  {
  }

  lemma {:induction false} WalkKeepsRooms(n: nat, k: nat, walls: set<Wall>, c: Cell, actions: seq<int>)
    requires c in OpenGrid(n, k, walls) && AreActions(actions)
    ensures var d := Walk(OpenGrid(n, k, walls), c, actions);
            d in OpenGrid(n, k, walls) && Linked(n, walls, Home(n, k, c), Home(n, k, d))
  {
    if actions == [] {
      HomeInGrid(n, k, c);
      LinkedSelf(n, walls, Home(n, k, c));
    } else {
      var before, a := actions[..|actions| - 1], actions[|actions| - 1];
      WalkKeepsRooms(n, k, walls, c, before);
      var mid := Walk(OpenGrid(n, k, walls), c, before);
      if Available(OpenGrid(n, k, walls), mid, a) {
        MoveKeepsRooms(n, k, walls, mid, a);
        LinkedTransitive(n, walls, Home(n, k, c), Home(n, k, mid), Home(n, k, Go(mid, a)));
      }
    }
  }

  // ---- From rooms to cells ----

  lemma ConnectedSelf(open: set<Cell>, c: Cell)
    ensures Connected(open, c, c)
  {
    assert Reaches(open, c, c, []);
  }

  /** Walking right (or up) along open cells. */
  lemma {:induction false} Line(open: set<Cell>, c: Cell, up: bool, length: nat)
    requires forall i | 0 <= i <= length :: Along(c, up, i) in open
    ensures Connected(open, c, Along(c, up, length))
    ensures Connected(open, Along(c, up, length), c)
  {
    if length == 0 {
      ConnectedSelf(open, c);
    } else {
      Line(open, c, up, length - 1);
      var last := Along(c, up, length - 1);
      assert Along(c, up, length) in open;
      ConnectedByMove(open, last, if up then 1 else 3);
      ConnectedIsTransitive(open, c, last, Along(c, up, length));
      assert Along(c, up, 0) in open;
      ConnectedIsSymmetric(open, c, Along(c, up, length));
    }
  }

  function Along(c: Cell, up: bool, i: int): Cell {
    if up then Cell(c.x, c.y + i) else Cell(c.x + i, c.y)
  }

  /** The lower left cell of a room. */
  function Corner(k: nat, r: Cell): (c: Cell)
    requires r.x >= 0 && r.y >= 0
  {
    Cell(Base(k + 1, r.x) + 1, Base(k + 1, r.y) + 1)
  }

  predicate OnRing(k: nat, c: Cell) {
    c.x >= 0 && c.y >= 0 && (Locate(k + 1, c.x).offset == 1 || Locate(k + 1, c.y).offset == 1)
  }

  /** The open cells in the lowest row and the leftmost column of every strip; every door has one of them. */
  ghost predicate HasSkeleton(n: nat, k: nat, walls: set<Wall>, open: set<Cell>) {
    forall c | c in OpenGrid(n, k, walls) && OnRing(k, c) :: c in open
  }

  /** On the way from the corner of a room to the corner of the next there are the room and the corridor. */
  lemma WayToNextCorner(n: nat, k: nat, walls: set<Wall>, w: Wall, i: nat)
    requires k > 0 && IsWall(n, w) && w !in walls && i <= k + 1
    ensures var c := Along(Corner(k, w.room), w.up, i);
            && OnRing(k, c) && c in OpenGrid(n, k, walls)
            && PlaceOf(n, k, c) == if i < k then Room(w.room) else if i == k then Corridor(w) else Room(w.Other())
  {
    var c := Along(Corner(k, w.room), w.up, i);
    var x, y := w.room.x, w.room.y;
    var forward := if i < k then Position(if w.up then y else x, i + 1)
        else Position((if w.up then y else x) + 1, i - k);
    if w.up {
      assert c == CellAt(k, Position(x, 1), forward);
      PlaceAt(n, k, Position(x, 1), forward);
    } else {
      assert c == CellAt(k, forward, Position(y, 1));
      PlaceAt(n, k, forward, Position(y, 1));
    }
    PlacesAreInside(n, k, c);
  }

  lemma NextCorner(k: nat, w: Wall)
    requires w.room.x >= 0 && w.room.y >= 0
    ensures Along(Corner(k, w.room), w.up, k + 1) == Corner(k, w.Other())
  {
  }

  lemma CornersByDoor(n: nat, k: nat, walls: set<Wall>, open: set<Cell>, w: Wall)
    requires k > 0 && IsWall(n, w) && w !in walls
    requires forall c | c in OpenGrid(n, k, walls) && OnRing(k, c)
               && PlaceOf(n, k, c) in {Room(w.room), Corridor(w), Room(w.Other())} :: c in open
    ensures Connected(open, Corner(k, w.room), Corner(k, w.Other()))
    ensures Connected(open, Corner(k, w.Other()), Corner(k, w.room))
  {
    forall i | 0 <= i <= k + 1
      ensures Along(Corner(k, w.room), w.up, i) in open
    {
      WayToNextCorner(n, k, walls, w, i);
    }
    Line(open, Corner(k, w.room), w.up, k + 1);
    NextCorner(k, w);
  }

  lemma {:induction false} CornersByPath(n: nat, k: nat, walls: set<Wall>, open: set<Cell>, p: seq<Cell>)
    requires k > 0 && Path(n, walls, p) && HasSkeleton(n, k, walls, open)
    ensures InGrid(n, p[|p| - 1]) && Connected(open, Corner(k, p[0]), Corner(k, p[|p| - 1]))
  {
    if |p| == 1 {
      ConnectedSelf(open, Corner(k, p[0]));
    } else {
      var m := |p| - 2;
      var q := p[..m + 1];
      assert Path(n, walls, q);
      CornersByPath(n, k, walls, open, q);
      assert Door(n, walls, p[m], p[m + 1]);
      CornersByDoor(n, k, walls, open, Between(p[m], p[m + 1]));
      ConnectedIsTransitive(open, Corner(k, p[0]), Corner(k, p[m]), Corner(k, p[m + 1]));
    }
  }

  /** Linked rooms have connected corners, as long as the skeleton is open. */
  lemma LinkedCorners(n: nat, k: nat, walls: set<Wall>, open: set<Cell>, a: Cell, b: Cell)
    requires k > 0 && Linked(n, walls, a, b) && HasSkeleton(n, k, walls, open)
    ensures InGrid(n, a) && InGrid(n, b) && Connected(open, Corner(k, a), Corner(k, b))
  {
    var p :| Path(n, walls, p) && p[0] == a && p[|p| - 1] == b;
    CornersByPath(n, k, walls, open, p);
  }

  /** Any cell of a room is connected with its corner, as long as the room is open. */
  lemma CellToCorner(n: nat, k: nat, open: set<Cell>, c: Cell)
    requires PlaceOf(n, k, c).Room?
    requires forall d: Cell | PlaceOf(n, k, d) == PlaceOf(n, k, c) :: d in open
    ensures var r := PlaceOf(n, k, c).room;
            && InGrid(n, r) && Connected(open, Corner(k, r), c) && Connected(open, c, Corner(k, r))
  {
    var r := PlaceOf(n, k, c).room;
    InsideRoom(n, k, r, c);
    forall d: Cell | Corner(k, r).x <= d.x <= c.x && Corner(k, r).y <= d.y <= c.y
      ensures d in open
    {
      RoomCells(n, k, r, d);
    }
    RightAndUp(open, Corner(k, r), c);
  }

  /** Right and then up inside an open rectangle, and back. */
  lemma RightAndUp(open: set<Cell>, corner: Cell, c: Cell)
    requires corner.x <= c.x && corner.y <= c.y
    requires forall d: Cell | corner.x <= d.x <= c.x && corner.y <= d.y <= c.y :: d in open
    ensures Connected(open, corner, c) && Connected(open, c, corner)
  {
    var turn := Cell(c.x, corner.y);
    Line(open, corner, false, c.x - corner.x);
    Line(open, turn, true, c.y - corner.y);
    assert Along(corner, false, c.x - corner.x) == turn && Along(turn, true, c.y - corner.y) == c;
    ConnectedIsTransitive(open, corner, turn, c);
    ConnectedIsTransitive(open, c, turn, corner);
  }

  /** A room lies within k cells of its corner in both directions, and nothing else does. */
  lemma InsideRoom(n: nat, k: nat, r: Cell, c: Cell)
    requires PlaceOf(n, k, c) == Room(r)
    ensures InGrid(n, r)
    ensures Base(k + 1, r.x) < c.x <= Base(k + 1, r.x) + k && Base(k + 1, r.y) < c.y <= Base(k + 1, r.y) + k
  {
  }

  lemma RoomCells(n: nat, k: nat, r: Cell, c: Cell)
    requires InGrid(n, r)
    requires Base(k + 1, r.x) < c.x <= Base(k + 1, r.x) + k && Base(k + 1, r.y) < c.y <= Base(k + 1, r.y) + k
    ensures PlaceOf(n, k, c) == Room(r)
  {
    var px, py := Position(r.x, c.x - Base(k + 1, r.x)), Position(r.y, c.y - Base(k + 1, r.y));
    assert c == CellAt(k, px, py);
    PlaceAt(n, k, px, py);
  }

  /** Two room cells are connected by the agents' moves iff their rooms are linked by doors. */
  lemma ExpansionKeepsConnectivity(n: nat, k: nat, walls: set<Wall>, a: Cell, b: Cell)
    requires PlaceOf(n, k, a).Room? && PlaceOf(n, k, b).Room?
    ensures Connected(OpenGrid(n, k, walls), a, b) <==> Linked(n, walls, PlaceOf(n, k, a).room, PlaceOf(n, k, b).room)
  {
    var open, ra, rb := OpenGrid(n, k, walls), PlaceOf(n, k, a).room, PlaceOf(n, k, b).room;
    forall c | PlaceOf(n, k, c).Room?
      ensures c in open
    {
      PlacesAreInside(n, k, c);
    }
    if Connected(open, a, b) {
      var actions :| Reaches(open, a, b, actions);
      WalkKeepsRooms(n, k, walls, a, actions);
    }
    if Linked(n, walls, ra, rb) {
      LinkedCorners(n, k, walls, open, ra, rb);
      CellToCorner(n, k, open, a);
      CellToCorner(n, k, open, b);
      ConnectedIsTransitive(open, a, Corner(k, ra), Corner(k, rb));
      ConnectedIsTransitive(open, a, Corner(k, rb), b);
    }
  }

  // ---- Painting the grid ----

  /** The grid of booleans whose open cells belong to the places carved so far. */
  ghost predicate Painted(blocked: array2<bool>, n: nat, k: nat, carved: set<Place>)
    reads blocked
  {
    && blocked.Length0 == blocked.Length1 == Dimension(n, k)
    && forall x, y {:trigger blocked[y, x]} | 0 <= x < Dimension(n, k) && 0 <= y < Dimension(n, k) ::
         blocked[y, x] <==> PlaceOf(n, k, Cell(x, y)) !in carved
  }

  predicate InRect(x0: int, y0: int, width: int, height: int, c: Cell) {
    x0 <= c.x < x0 + width && y0 <= c.y < y0 + height
  }

  /** Opens a rectangle of cells that is exactly one place. */
  method CarveRect(blocked: array2<bool>, n: nat, k: nat, ghost carved: set<Place>, ghost place: Place,
                   x0: nat, y0: nat, width: nat, height: nat)
    requires Painted(blocked, n, k, carved)
    requires x0 + width <= blocked.Length1 && y0 + height <= blocked.Length0
    requires forall c :: InRect(x0, y0, width, height, c) <==> PlaceOf(n, k, c) == place
    modifies blocked
    ensures Painted(blocked, n, k, carved + {place})
  {
    for dy := 0 to height
      invariant forall x, y {:trigger blocked[y, x]} | 0 <= x < blocked.Length1 && 0 <= y < blocked.Length0 ::
                  blocked[y, x] == (old(blocked[y, x]) && !InRect(x0, y0, width, dy, Cell(x, y)))
    {
      for dx := 0 to width
        invariant forall x, y {:trigger blocked[y, x]} | 0 <= x < blocked.Length1 && 0 <= y < blocked.Length0 ::
                    blocked[y, x] == (old(blocked[y, x]) && !InRect(x0, y0, width, dy, Cell(x, y))
                                      && !InRect(x0, y0 + dy, dx, 1, Cell(x, y)))
      {
        blocked[y0 + dy, x0 + dx] := false;
      }
    }
  }

  lemma RoomIsRect(n: nat, k: nat, r: Cell)
    requires InGrid(n, r)
    ensures var x0, y0 := r.x * (k + 1) + 1, r.y * (k + 1) + 1;
            && 0 <= x0 && x0 + k < Dimension(n, k) && 0 <= y0 && y0 + k < Dimension(n, k)
            && forall c :: InRect(x0, y0, k, k, c) <==> PlaceOf(n, k, c) == Room(r)
  {
    Product(n, k, r.x);
    Product(n, k, r.y);
    forall c
      ensures InRect(Base(k + 1, r.x) + 1, Base(k + 1, r.y) + 1, k, k, c) <==> PlaceOf(n, k, c) == Room(r)
    {
      if InRect(Base(k + 1, r.x) + 1, Base(k + 1, r.y) + 1, k, k, c) {
        PlaceAt(n, k, Position(r.x, c.x - Base(k + 1, r.x)), Position(r.y, c.y - Base(k + 1, r.y)));
      }
    }
  }

  lemma Product(n: nat, k: nat, room: nat)
    requires room < n
    ensures room * (k + 1) == Base(k + 1, room)
              && (room + 1) * (k + 1) == Base(k + 1, room + 1) == Base(k + 1, room) + k + 1
    ensures Base(k + 1, room) + k + 1 < Dimension(n, k)
  {
    BaseIsProduct(k + 1, room);
    BaseIsProduct(k + 1, room + 1);
    BaseGrows(k + 1, room, n);
  }

  lemma UpperCorridor(n: nat, k: nat, r: Cell, c: Cell)
    requires InGrid(n, r) && r.y + 1 < n
    ensures InRect(Base(k + 1, r.x) + 1, Base(k + 1, r.y + 1), k, 1, c) <==> PlaceOf(n, k, c) == Corridor(Wall(r, true))
  {
    if InRect(Base(k + 1, r.x) + 1, Base(k + 1, r.y + 1), k, 1, c) {
      PlaceAt(n, k, Position(r.x, c.x - Base(k + 1, r.x)), Position(r.y + 1, 0));
    }
  }

  lemma RightCorridor(n: nat, k: nat, r: Cell, c: Cell)
    requires InGrid(n, r) && r.x + 1 < n
    ensures InRect(Base(k + 1, r.x + 1), Base(k + 1, r.y) + 1, 1, k, c) <==>
              PlaceOf(n, k, c) == Corridor(Wall(r, false))
  {
    if InRect(Base(k + 1, r.x + 1), Base(k + 1, r.y) + 1, 1, k, c) {
      PlaceAt(n, k, Position(r.x + 1, 0), Position(r.y, c.y - Base(k + 1, r.y)));
    }
  }

  lemma UpperIsRect(n: nat, k: nat, r: Cell)
    requires InGrid(n, r) && r.y + 1 < n
    ensures var x0, y0 := r.x * (k + 1) + 1, (r.y + 1) * (k + 1);
            && 0 <= x0 && x0 + k <= Dimension(n, k) && 0 <= y0 && y0 + 1 <= Dimension(n, k)
            && forall c :: InRect(x0, y0, k, 1, c) <==> PlaceOf(n, k, c) == Corridor(Wall(r, true))
  {
    Product(n, k, r.x);
    Product(n, k, r.y);
    forall c
      ensures InRect(Base(k + 1, r.x) + 1, Base(k + 1, r.y + 1), k, 1, c) <==>
                PlaceOf(n, k, c) == Corridor(Wall(r, true))
    {
      UpperCorridor(n, k, r, c);
    }
  }

  lemma RightIsRect(n: nat, k: nat, r: Cell)
    requires InGrid(n, r) && r.x + 1 < n
    ensures var x0, y0 := (r.x + 1) * (k + 1), r.y * (k + 1) + 1;
            && 0 <= x0 && x0 + 1 <= Dimension(n, k) && 0 <= y0 && y0 + k <= Dimension(n, k)
            && forall c :: InRect(x0, y0, 1, k, c) <==> PlaceOf(n, k, c) == Corridor(Wall(r, false))
  {
    Product(n, k, r.x);
    Product(n, k, r.y);
    forall c
      ensures InRect(Base(k + 1, r.x + 1), Base(k + 1, r.y) + 1, 1, k, c) <==>
                PlaceOf(n, k, c) == Corridor(Wall(r, false))
    {
      RightCorridor(n, k, r, c);
    }
  }

  /** The rooms before room (x, y) in row order. */
  ghost predicate Before(r: Cell, x: int, y: int) {
    r.y < y || (r.y == y && r.x < x)
  }

  ghost function RoomsBefore(n: nat, x: int, y: int): set<Place> {
    set r | r in AllRooms(n) && Before(r, x, y) :: Room(r)
  }

  ghost function GapsBefore(n: nat, walls: set<Wall>, x: int, y: int): set<Place> {
    set w | w in Doors(n, walls) && Before(w.room, x, y) :: Corridor(w)
  }

  lemma NextRoom(n: nat, x: int, y: int)
    requires InGrid(n, Cell(x, y))
    ensures RoomsBefore(n, x + 1, y) == RoomsBefore(n, x, y) + {Room(Cell(x, y))}
  {
  }

  lemma NextGaps(n: nat, walls: set<Wall>, x: int, y: int)
    requires InGrid(n, Cell(x, y))
    ensures var right, up := Wall(Cell(x, y), false), Wall(Cell(x, y), true);
            GapsBefore(n, walls, x + 1, y)
            == GapsBefore(n, walls, x, y)
               + (if x + 1 < n && right !in walls then {Corridor(right)} else {})
               + (if y + 1 < n && up !in walls then {Corridor(up)} else {})
  {
  }

  lemma AllCarved(n: nat, k: nat, walls: set<Wall>, c: Cell)
    requires Inside(Dimension(n, k), c)
    ensures PlaceOf(n, k, c) in RoomsBefore(n, 0, n) + GapsBefore(n, walls, 0, n) <==> c in OpenGrid(n, k, walls)
  {
    var p := PlaceOf(n, k, c);
    if p.Room? {
      assert p.room in AllRooms(n) && Before(p.room, 0, n);
    } else if p.Corridor? {
      assert p.wall in AllWalls(n) && Before(p.wall.room, 0, n);
    }
  }

  /** A blocked grid shows a set of open cells. */
  ghost predicate ShowsOpen(blocked: array2<bool>, dim: nat, open: set<Cell>)
    reads blocked
  {
    && blocked.Length0 == blocked.Length1 == dim
    && forall x, y {:trigger blocked[y, x]} | 0 <= x < dim && 0 <= y < dim :: blocked[y, x] <==> Cell(x, y) !in open
  }

  /** The cell lies in the k x k cells of a room, in coordinates. */
  predicate InRoom(k: nat, r: Cell, c: Cell) {
    && r.x * (k + 1) + 1 <= c.x <= r.x * (k + 1) + k
    && r.y * (k + 1) + 1 <= c.y <= r.y * (k + 1) + k
  }

  /** The cell lies in the one cell wide strip between two rooms, in coordinates. */
  predicate InGap(k: nat, w: Wall, c: Cell) {
    var x, y := w.room.x * (k + 1), w.room.y * (k + 1);
    if w.up then x + 1 <= c.x <= x + k && c.y == (w.room.y + 1) * (k + 1)
    else c.x == (w.room.x + 1) * (k + 1) && y + 1 <= c.y <= y + k
  }

  predicate OnLine(k: nat, i: int, v: int) {
    v == i * (k + 1)
  }

  /** The grid in coordinates: rooms are open, strips between rooms are open exactly where no wall stands, and where
      the wall lines cross or reach the border everything is blocked. */
  ghost predicate GridMeans(n: nat, k: nat, walls: set<Wall>, open: set<Cell>) {
    && (forall r, c | InGrid(n, r) && InRoom(k, r, c) :: c in open)
    && (forall w, c | IsWall(n, w) && InGap(k, w, c) :: c in open <==> w !in walls)
    && (forall i, j, c: Cell | 0 <= i <= n && 0 <= j <= n && OnLine(k, i, c.x) && OnLine(k, j, c.y) :: c !in open)
    && (forall c | c in open :: 0 < c.x < n * (k + 1) && 0 < c.y < n * (k + 1))
  }

  lemma OpenGridMeans(n: nat, k: nat, walls: set<Wall>)
    ensures GridMeans(n, k, walls, OpenGrid(n, k, walls))
  {
    var open := OpenGrid(n, k, walls);
    forall r, c | InGrid(n, r) && InRoom(k, r, c)
      ensures c in open
    {
      RoomIsRect(n, k, r);
    }
    forall w, c | IsWall(n, w) && InGap(k, w, c)
      ensures c in open <==> w !in walls
    {
      if w.up {
        UpperIsRect(n, k, w.room);
      } else {
        RightIsRect(n, k, w.room);
      }
    }
    forall i, j, c: Cell | 0 <= i <= n && 0 <= j <= n && OnLine(k, i, c.x) && OnLine(k, j, c.y)
      ensures c !in open
    {
      BaseIsProduct(k + 1, i);
      BaseIsProduct(k + 1, j);
      PlaceAt(n, k, Position(i, 0), Position(j, 0));
    }
    BaseIsProduct(k + 1, n);
    forall c | c in open
      ensures 0 < c.x < n * (k + 1) && 0 < c.y < n * (k + 1)
    {
      BorderIsBlocked(n, k, walls, c);
    }
  }

  method EdgesToBlockedGrid(edges: WallEdgeSet, n: nat, k: nat) returns (blocked: array2<bool>, dim: nat)
    ensures fresh(blocked) && dim == n * (k + 1) + 1 == Dimension(n, k)
    ensures ShowsOpen(blocked, dim, OpenGrid(n, k, edges.walls))
    ensures GridMeans(n, k, edges.walls, OpenGrid(n, k, edges.walls))
  {
    OpenGridMeans(n, k, edges.walls);
    BaseIsProduct(k + 1, n);
    dim := n * (k + 1) + 1;
    blocked := new bool[dim, dim]((_, _) => true);
    CarveRooms(blocked, n, k);
    CarveCorridors(edges, blocked, n, k);
    forall x, y | 0 <= x < dim && 0 <= y < dim
      ensures blocked[y, x] <==> Cell(x, y) !in OpenGrid(n, k, edges.walls)
    {
      AllCarved(n, k, edges.walls, Cell(x, y));
    }
  }

  method CarveRooms(blocked: array2<bool>, n: nat, k: nat)
    requires Painted(blocked, n, k, {})
    modifies blocked
    ensures Painted(blocked, n, k, RoomsBefore(n, 0, n))
  {
    for ry := 0 to n
      invariant Painted(blocked, n, k, RoomsBefore(n, 0, ry))
    {
      for rx := 0 to n
        invariant Painted(blocked, n, k, RoomsBefore(n, rx, ry))
      {
        RoomIsRect(n, k, Cell(rx, ry));
        NextRoom(n, rx, ry);
        CarveRect(blocked, n, k, RoomsBefore(n, rx, ry), Room(Cell(rx, ry)), rx * (k + 1) + 1, ry * (k + 1) + 1, k, k);
      }
      assert RoomsBefore(n, n, ry) == RoomsBefore(n, 0, ry + 1);
    }
  }

  /** Opens the one cell wide strip between every two neighbouring rooms without a wall. */
  method CarveCorridors(edges: WallEdgeSet, blocked: array2<bool>, n: nat, k: nat)
    requires Painted(blocked, n, k, RoomsBefore(n, 0, n))
    modifies blocked
    ensures Painted(blocked, n, k, RoomsBefore(n, 0, n) + GapsBefore(n, edges.walls, 0, n))
  {
    ghost var carved := RoomsBefore(n, 0, n);
    for ry := 0 to n
      invariant carved == RoomsBefore(n, 0, n) + GapsBefore(n, edges.walls, 0, ry)
      invariant Painted(blocked, n, k, carved)
    {
      for rx := 0 to n
        invariant carved == RoomsBefore(n, 0, n) + GapsBefore(n, edges.walls, rx, ry)
        invariant Painted(blocked, n, k, carved)
      {
        NextGaps(n, edges.walls, rx, ry);
        carved := CarveGaps(edges, blocked, n, k, carved, rx, ry);
      }
      assert GapsBefore(n, edges.walls, n, ry) == GapsBefore(n, edges.walls, 0, ry + 1);
    }
  }

  method CarveGaps(edges: WallEdgeSet, blocked: array2<bool>, n: nat, k: nat, ghost carved: set<Place>, rx: nat,
                   ry: nat)
    returns (ghost now: set<Place>)
    requires InGrid(n, Cell(rx, ry)) && Painted(blocked, n, k, carved)
    modifies blocked
    ensures Painted(blocked, n, k, now)
    ensures var right, up := Wall(Cell(rx, ry), false), Wall(Cell(rx, ry), true);
            now == carved + (if rx + 1 < n && right !in edges.walls then {Corridor(right)} else {})
                          + (if ry + 1 < n && up !in edges.walls then {Corridor(up)} else {})
  {
    now := carved;
    if rx + 1 < n && !edges.HasWall(Cell(rx, ry), Cell(rx + 1, ry)) {
      var w := Wall(Cell(rx, ry), false);
      RightIsRect(n, k, w.room);
      CarveRect(blocked, n, k, now, Corridor(w), (rx + 1) * (k + 1), ry * (k + 1) + 1, 1, k);
      now := now + {Corridor(w)};
    }
    if ry + 1 < n && !edges.HasWall(Cell(rx, ry), Cell(rx, ry + 1)) {
      var w := Wall(Cell(rx, ry), true);
      UpperIsRect(n, k, w.room);
      CarveRect(blocked, n, k, now, Corridor(w), rx * (k + 1) + 1, (ry + 1) * (k + 1), k, 1);
      now := now + {Corridor(w)};
    }
  }
}
