/** Carvings that leave chosen walls standing: all walls between two neighbouring strips of rooms but one. */
module Sparing {
  import opened Moves
  import opened Rooms

  /** The grid of rooms seen along one axis, possibly upside down: `u` counts strips, `v` rooms in a strip. */
  datatype View = View(n: nat, flip: bool, mirror: bool) {
    function At(u: int, v: int): Cell {
      var w := if mirror then n - 1 - v else v;
      if flip then Cell(w, u) else Cell(u, w)
    }

    function Block(u0: int, u1: int, v0: int, v1: int): (block: set<Cell>)
      ensures forall u, v {:trigger At(u, v)} :: At(u, v) in block <==> u0 <= u <= u1 && v0 <= v <= v1
    {
      set u, v | u0 <= u <= u1 && v0 <= v <= v1 :: At(u, v)
    }

    /** The walls between strip a and the next one, except on the last line. */
    function Guard(a: int): set<Wall> {
      set v | 0 <= v < n - 1 :: Wall(At(a, v), flip)
    }
  }

  /** A state of the carving loop that can be reached and has not opened any of the guarded walls. */
  ghost predicate Spares(n: nat, guard: set<Wall>, s: Dig) {
    Leads(n, FirstDig(n), s) && guard <= s.walls
  }

  ghost predicate OnTop(s: Dig, c: Cell) {
    s.stack != [] && s.stack[|s.stack| - 1] == c && c in s.visited
  }

  lemma DigInto(n: nat, guard: set<Wall>, s: Dig, c: Cell, d: Cell) returns (t: Dig)
    requires Spares(n, guard, s) && OnTop(s, c) && Unvisited(n, s.visited, c, d) && Between(c, d) !in guard
    ensures Spares(n, guard, t) && OnTop(t, d) && t.visited == s.visited + {d}
  {
    t := Into(s, c, d);
    LeadsOn(n, FirstDig(n), s, t);
  }

  /** Along a strip no wall is guarded. */
  lemma StepAlong(view: View, a: int, s: Dig, u: int, v: int, next: int) returns (t: Dig)
    requires Spares(view.n, view.Guard(a), s) && OnTop(s, view.At(u, v))
    requires 0 <= u < view.n && 0 <= v < view.n && 0 <= next < view.n && (next == v + 1 || next == v - 1)
    requires view.At(u, next) !in s.visited
    ensures Spares(view.n, view.Guard(a), t) && OnTop(t, view.At(u, next))
    ensures t.visited == s.visited + {view.At(u, next)}
  {
    t := DigInto(view.n, view.Guard(a), s, view.At(u, v), view.At(u, next));
  }

  /** From one strip to the next no wall is guarded, except from strip a before the last line. */
  lemma StepAcross(view: View, a: int, s: Dig, u: int, v: int) returns (t: Dig)
    requires Spares(view.n, view.Guard(a), s) && OnTop(s, view.At(u, v))
    requires 0 <= u && u + 1 < view.n && 0 <= v < view.n && (u != a || v == view.n - 1)
    requires view.At(u + 1, v) !in s.visited
    ensures Spares(view.n, view.Guard(a), t) && OnTop(t, view.At(u + 1, v))
    ensures t.visited == s.visited + {view.At(u + 1, v)}
  {
    t := DigInto(view.n, view.Guard(a), s, view.At(u, v), view.At(u + 1, v));
  }

  lemma EndsOfLine(view: View, u: int, v0: int, v1: int)
    requires v0 <= v1
    ensures view.Block(u, u, v0, v1) == {view.At(u, v0)} + view.Block(u, u, v0 + 1, v1)
    ensures view.Block(u, u, v0, v1) == view.Block(u, u, v0, v1 - 1) + {view.At(u, v1)}
  {
  }

  lemma FirstStrip(view: View, u0: int, u1: int, v0: int, v1: int)
    requires u0 <= u1
    ensures view.Block(u0, u1, v0, v1) == view.Block(u0, u0, v0, v1) + view.Block(u0 + 1, u1, v0, v1)
  {
  }

  lemma {:induction false} GoUp(view: View, a: int, s: Dig, u: int, v: int, top: int) returns (t: Dig)
    requires Spares(view.n, view.Guard(a), s) && OnTop(s, view.At(u, v))
    requires 0 <= u < view.n && 0 <= v <= top < view.n
    requires forall y | v < y <= top :: view.At(u, y) !in s.visited
    ensures Spares(view.n, view.Guard(a), t) && OnTop(t, view.At(u, top))
    ensures t.visited == s.visited + view.Block(u, u, v, top)
    decreases top - v
  {
    EndsOfLine(view, u, v, top);
    if v == top {
      t := s;
    } else {
      t := StepAlong(view, a, s, u, v, v + 1);
      t := GoUp(view, a, t, u, v + 1, top);
    }
  }

  lemma {:induction false} GoDown(view: View, a: int, s: Dig, u: int, v: int, bottom: int) returns (t: Dig)
    requires Spares(view.n, view.Guard(a), s) && OnTop(s, view.At(u, v))
    requires 0 <= u < view.n && 0 <= bottom <= v < view.n
    requires forall y | bottom <= y < v :: view.At(u, y) !in s.visited
    ensures Spares(view.n, view.Guard(a), t) && OnTop(t, view.At(u, bottom))
    ensures t.visited == s.visited + view.Block(u, u, bottom, v)
    decreases v - bottom
  {
    EndsOfLine(view, u, bottom, v);
    if v == bottom {
      t := s;
    } else {
      t := StepAlong(view, a, s, u, v, v - 1);
      t := GoDown(view, a, t, u, v - 1, bottom);
    }
  }

  lemma {:induction false} GoAcross(view: View, a: int, s: Dig, u: int, end: int, v: int) returns (t: Dig)
    requires Spares(view.n, view.Guard(a), s) && OnTop(s, view.At(u, v))
    requires 0 <= u <= end < view.n && 0 <= v < view.n && end <= a
    requires forall x | u < x <= end :: view.At(x, v) !in s.visited
    ensures Spares(view.n, view.Guard(a), t) && OnTop(t, view.At(end, v))
    ensures t.visited == s.visited + view.Block(u, end, v, v)
    decreases end - u
  {
    FirstStrip(view, u, end, v, v);
    EndsOfLine(view, u, v, v);
    if u == end {
      t := s;
    } else {
      t := StepAcross(view, a, s, u, v);
      t := GoAcross(view, a, t, u + 1, end, v);
    }
  }

  /** Through one strip, from its end to its start or the other way round. */
  lemma Through(view: View, a: int, s: Dig, u: int, last: bool) returns (t: Dig)
    requires 0 <= u < view.n && Spares(view.n, view.Guard(a), s) && OnTop(s, view.At(u, if last then view.n - 1 else 0))
    requires forall y | 0 <= y < view.n && y != (if last then view.n - 1 else 0) :: view.At(u, y) !in s.visited
    ensures Spares(view.n, view.Guard(a), t) && OnTop(t, view.At(u, if last then 0 else view.n - 1))
    ensures t.visited == s.visited + view.Block(u, u, 0, view.n - 1)
  {
    if last {
      t := GoDown(view, a, s, u, view.n - 1, 0);
    } else {
      t := GoUp(view, a, s, u, 0, view.n - 1);
    }
  }

  /** Through all strips from u on, back and forth. */
  lemma {:induction false} Snake(view: View, a: int, s: Dig, u: int, last: bool) returns (t: Dig)
    requires a < u < view.n
    requires Spares(view.n, view.Guard(a), s) && 0 <= u && OnTop(s, view.At(u, if last then view.n - 1 else 0))
    requires forall x, y | u <= x < view.n && 0 <= y < view.n && !(x == u && y == if last then view.n - 1 else 0) ::
               view.At(x, y) !in s.visited
    ensures Spares(view.n, view.Guard(a), t)
    ensures t.visited == s.visited + view.Block(u, view.n - 1, 0, view.n - 1)
    decreases view.n - u
  {
    FirstStrip(view, u, view.n - 1, 0, view.n - 1);
    t := Through(view, a, s, u, last);
    if u + 1 < view.n {
      t := StepAcross(view, a, t, u, if last then 0 else view.n - 1);
      t := Snake(view, a, t, u + 1, !last);
    }
  }

  /** Once both sides of every guarded wall are visited, the carving can end in any way. */
  lemma {:induction false} Completes(n: nat, guard: set<Wall>, s: Dig) returns (walls: set<Wall>)
    requires Spares(n, guard, s) && forall w | w in guard :: w.room in s.visited && w.Other() in s.visited
    ensures CanCarve(n, walls) && guard <= walls
    decreases |AllRooms(n) - s.visited|, |s.stack|
  {
    if s.stack == [] {
      return s.walls;
    }
    var c := s.stack[|s.stack| - 1];
    var t := s.(stack := s.stack[..|s.stack| - 1]);
    if d :| Unvisited(n, s.visited, c, d) {
      FewerLeft(n, s.visited, d);
      t := Into(s, c, d);
    }
    LeadsOn(n, FirstDig(n), s, t);
    walls := Completes(n, guard, t);
  }

  lemma SomeCarving(n: nat) returns (walls: set<Wall>)
    ensures CanCarve(n, walls)
  {
    LeadsNowhere(n, FirstDig(n));
    walls := Completes(n, {}, FirstDig(n));
  }

  /** Through strip 0, if it is seen upside down, then along the first line to strip a and up to its end. */
  lemma FirstLegs(view: View, a: int) returns (t: Dig)
    requires 0 < a && a + 1 < view.n
    ensures Spares(view.n, view.Guard(a), t) && OnTop(t, view.At(a, view.n - 1))
    ensures view.Block(a, a, 0, view.n - 1) <= t.visited
    ensures forall u, v | a < u :: view.At(u, v) !in t.visited
  {
    t := FirstDig(view.n);
    LeadsNowhere(view.n, t);
    assert forall v | 0 <= v < view.n - 1 :: IsWall(view.n, Wall(view.At(a, v), view.flip));
    if view.mirror {
      t := GoDown(view, a, t, 0, view.n - 1, 0);
    }
    t := GoAcross(view, a, t, 0, a, 0);
    t := GoUp(view, a, t, a, 0, view.n - 1);
  }

  /** Some carving opens the walls between two strips on the last line only: it first visits strip a to its end,
      crosses there and then visits everything beyond. */
  lemma SomeCarvingSpares(view: View, a: int) returns (walls: set<Wall>)
    requires 0 < a && a + 1 < view.n
    ensures CanCarve(view.n, walls) && view.Guard(a) <= walls
  {
    var t := FirstLegs(view, a);
    t := StepAcross(view, a, t, a, view.n - 1);
    t := Snake(view, a, t, a + 1, true);
    assert forall v | 0 <= v < view.n - 1 :: Wall(view.At(a, v), view.flip).Other() == view.At(a + 1, v);
    walls := Completes(view.n, view.Guard(a), t);
  }
}
