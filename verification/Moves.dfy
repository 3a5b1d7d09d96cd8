/** Cells, the nine actions and the corner-cut-free move rule, over the set of open cells. */
module Moves {
  datatype Cell = Cell(x: int, y: int)

  /** Offset of each action: stay, up, up-right, right, down-right, down, down-left, left, up-left. */
  const DIRECTIONS: seq<(int, int)> :=
    [(0, 0), (0, 1), (1, 1), (1, 0), (1, -1), (0, -1), (-1, -1), (-1, 0), (-1, 1)]

  predicate IsAction(a: int) {
    0 <= a < 9
  }

  function Go(c: Cell, a: int): Cell
    requires IsAction(a)
  {
    Cell(c.x + DIRECTIONS[a].0, c.y + DIRECTIONS[a].1)
  }

  /** A diagonal step also needs both cells beside it. */
  predicate Available(open: set<Cell>, c: Cell, a: int)
    requires IsAction(a)
  {
    var (dx, dy) := DIRECTIONS[a];
    && Go(c, a) in open
    && (dx != 0 && dy != 0 ==> Cell(c.x + dx, c.y) in open && Cell(c.x, c.y + dy) in open)
  }

  /** Each half of an available move leads to an open cell. */
  lemma HalfMoves(open: set<Cell>, c: Cell, a: int) returns (dx: int, dy: int)
    requires IsAction(a) && Available(open, c, a)
    ensures -1 <= dx <= 1 && -1 <= dy <= 1 && Go(c, a) == Cell(c.x + dx, c.y + dy)
    ensures dx != 0 ==> Cell(c.x + dx, c.y) in open
    ensures dy != 0 ==> Cell(c.x, c.y + dy) in open
  {
    dx, dy := DIRECTIONS[a].0, DIRECTIONS[a].1;
    assert Go(c, a) in open;
  }

  /** Up is y + 1; the eight moves go clockwise from it, each straight one a quarter turn after the last, and each
      diagonal is the sum of the two straight ones beside it. */
  lemma MovesGoClockwise(c: Cell, a: int)
    requires 1 <= a <= 8
    ensures var d, next, after := Go(c, a), Go(c, a % 8 + 1), Go(c, (a + 1) % 8 + 1);
            && Go(c, 0) == c && Go(c, 1) == Cell(c.x, c.y + 1)
            && after == Cell(c.x + (d.y - c.y), c.y - (d.x - c.x))
            && (a % 2 == 1 ==> next == Cell(d.x + after.x - c.x, d.y + after.y - c.y))
  {
    assert a == 1 || a == 2 || a == 3 || a == 4 || a == 5 || a == 6 || a == 7 || a == 8;
  }

  /** From an open cell an action is available iff its target and the two cells between are open. */
  lemma AvailableMeans(open: set<Cell>, c: Cell, a: int)
    requires c in open && IsAction(a)
    ensures Available(open, c, a) <==>
              var d := Go(c, a); d in open && Cell(d.x, c.y) in open && Cell(c.x, d.y) in open
  {
    var (dx, dy) := DIRECTIONS[a];
    assert Go(c, a) == Cell(c.x + dx, c.y + dy);
  }

  /** Every action but the first leads away when it is available. */
  lemma MoveLeaves(open: set<Cell>, c: Cell, a: int)
    requires IsAction(a)
    ensures Move(open, c, a) != c <==> a != 0 && Available(open, c, a)
  {
    assert a == 0 || a == 1 || a == 2 || a == 3 || a == 4 || a == 5 || a == 6 || a == 7 || a == 8;
  }

  /** Where one action leads: an unavailable one leaves the agent where it is. */
  function Move(open: set<Cell>, c: Cell, a: int): Cell
    requires IsAction(a)
  {
    if Available(open, c, a) then Go(c, a) else c
  }

  predicate AreActions(actions: seq<int>) {
    forall k | 0 <= k < |actions| :: IsAction(actions[k])
  }

  function Walk(open: set<Cell>, c: Cell, actions: seq<int>): Cell
    requires AreActions(actions)
  {
    if actions == [] then c
    else Move(open, Walk(open, c, actions[..|actions| - 1]), actions[|actions| - 1])
  }

  ghost predicate Reaches(open: set<Cell>, from: Cell, to: Cell, actions: seq<int>) {
    AreActions(actions) && Walk(open, from, actions) == to
  }

  /** d actions lead from one cell to the other and fewer never do. */
  ghost predicate IsDistance(open: set<Cell>, from: Cell, to: Cell, d: nat) {
    && (exists actions :: |actions| == d && Reaches(open, from, to, actions))
    && (forall actions | Reaches(open, from, to, actions) :: |actions| >= d)
  }

  ghost predicate Unreachable(open: set<Cell>, from: Cell, to: Cell) {
    forall actions :: !Reaches(open, from, to, actions)
  }

  // ---- Moves can be taken back ----

  function Opposite(a: int): int
    requires IsAction(a)
  {
    if a == 0 then 0 else (a + 3) % 8 + 1
  }

  lemma MoveIsReversible(open: set<Cell>, c: Cell, a: int)
    requires IsAction(a) && c in open && Available(open, c, a)
    ensures IsAction(Opposite(a)) && Opposite(Opposite(a)) == a
    ensures Available(open, Go(c, a), Opposite(a)) && Go(Go(c, a), Opposite(a)) == c
  {
    assert a == 0 || a == 1 || a == 2 || a == 3 || a == 4 || a == 5 || a == 6 || a == 7 || a == 8;
  }

  lemma {:induction false} WalkStaysOpen(open: set<Cell>, c: Cell, actions: seq<int>)
    requires AreActions(actions) && c in open
    ensures Walk(open, c, actions) in open
  {
    if actions != [] {
      WalkStaysOpen(open, c, actions[..|actions| - 1]);
    }
  }

  lemma {:induction false} WalkAppend(open: set<Cell>, c: Cell, a: seq<int>, b: seq<int>)
    requires AreActions(a) && AreActions(b)
    ensures AreActions(a + b) && Walk(open, c, a + b) == Walk(open, Walk(open, c, a), b)
  {
    if b == [] {
      assert a + b == a;
    } else {
      WalkAppend(open, c, a, b[..|b| - 1]);
      assert (a + b)[..|a + b| - 1] == a + b[..|b| - 1];
    }
  }

  /** Every walk is taken back by a walk of the same length. */
  lemma {:induction false} WalkIsReversible(open: set<Cell>, c: Cell, actions: seq<int>) returns (back: seq<int>)
    requires AreActions(actions) && c in open
    ensures |back| == |actions| && Reaches(open, Walk(open, c, actions), c, back)
  {
    if actions == [] {
      return [];
    }
    var before, a := actions[..|actions| - 1], actions[|actions| - 1];
    var mid := Walk(open, c, before);
    WalkStaysOpen(open, c, before);
    var rest := WalkIsReversible(open, c, before);
    var undo := 0;
    if Available(open, mid, a) {
      MoveIsReversible(open, mid, a);
      undo := Opposite(a);
    }
    back := [undo] + rest;
    assert [undo][..0] == [];
    assert Walk(open, Walk(open, c, actions), [undo]) == mid;
    WalkAppend(open, Walk(open, c, actions), [undo], rest);
  }

  /** The distance from start to goal is the distance from goal to start, on every grid. */
  lemma DistanceIsSymmetric(open: set<Cell>, from: Cell, to: Cell, d: nat)
    requires from in open && to in open && IsDistance(open, from, to, d)
    ensures IsDistance(open, to, from, d)
  {
    var there :| |there| == d && Reaches(open, from, to, there);
    var back := WalkIsReversible(open, from, there);
    assert Reaches(open, to, from, back);
    forall actions | Reaches(open, to, from, actions)
      ensures |actions| >= d
    {
      var again := WalkIsReversible(open, to, actions);
      assert Reaches(open, from, to, again);
    }
  }

  // ---- Connectivity ----

  ghost predicate Connected(open: set<Cell>, from: Cell, to: Cell) {
    exists actions :: Reaches(open, from, to, actions)
  }

  lemma ConnectedIsTransitive(open: set<Cell>, a: Cell, b: Cell, c: Cell)
    requires Connected(open, a, b) && Connected(open, b, c)
    ensures Connected(open, a, c)
  {
    var s :| Reaches(open, a, b, s);
    var t :| Reaches(open, b, c, t);
    WalkAppend(open, a, s, t);
    assert Reaches(open, a, c, s + t);
  }

  lemma ConnectedIsSymmetric(open: set<Cell>, a: Cell, b: Cell)
    requires a in open && Connected(open, a, b)
    ensures Connected(open, b, a)
  {
    var s :| Reaches(open, a, b, s);
    var back := WalkIsReversible(open, a, s);
    assert Reaches(open, b, a, back);
  }

  lemma ConnectedByMove(open: set<Cell>, c: Cell, a: int)
    requires IsAction(a) && Available(open, c, a)
    ensures Connected(open, c, Go(c, a))
  {
    assert [a][..0] == [];
    assert Reaches(open, c, Go(c, a), [a]);
  }
}
