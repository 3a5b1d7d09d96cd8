/** Breadth-first search over a row-major grid, with a queue of cell numbers and a distance table. */
module ShortestPath {
  import opened Moves

  predicate InBounds(cols: nat, rows: nat, c: Cell) {
    0 <= c.x < cols && 0 <= c.y < rows
  }

  function OpenCells(cols: nat, rows: nat, walkable: Cell -> bool): (open: set<Cell>)
    ensures forall c :: c in open <==> InBounds(cols, rows, c) && walkable(c)
  {
    set x, y | 0 <= x < cols && 0 <= y < rows && walkable(Cell(x, y)) :: Cell(x, y)
  }

  /** The numbering of the cells: `cells[i]` is the cell with number i. */
  datatype Layout = Layout(cells: seq<Cell>, index: map<Cell, nat>) {
    ghost predicate Valid() {
      && (forall i {:trigger cells[i]} | 0 <= i < |cells| :: cells[i] in index && index[cells[i]] == i)
      && (forall c {:trigger index[c]} | c in index :: index[c] < |cells| && cells[index[c]] == c)
    }
  }

  lemma MulBounds(k: int, m: int)
    requires m > 0
    ensures k > 0 ==> k * m >= m
    ensures k < 0 ==> k * m <= -m
  {
  }

  lemma DivMod(q: int, r: int, m: int)
    requires 0 <= r < m
    ensures (q * m + r) / m == q && (q * m + r) % m == r
  {
    var n := q * m + r;
    var k := n / m - q;
    assert k * m == r - n % m by {
      assert n == (n / m) * m + n % m;
      assert k * m == (n / m) * m - q * m;
    }
    MulBounds(k, m);
  }

  /** The row-major number of a cell and the cell of a number. */
  function Number(cols: nat, c: Cell): int { c.y * cols + c.x }

  function CellAt(cols: nat, i: nat): Cell
    requires cols > 0
  {
    Cell(i % cols, i / cols)
  }

  lemma NumberInRange(cols: nat, rows: nat, c: Cell)
    requires InBounds(cols, rows, c)
    ensures 0 <= Number(cols, c) < cols * rows && CellAt(cols, Number(cols, c)) == c
  {
    DivMod(c.y, c.x, cols);
    RowBound(cols, rows, c.y);
  }

  lemma RowBound(cols: nat, rows: nat, y: int)
    requires 0 <= y < rows
    ensures 0 <= y * cols && y * cols + cols <= cols * rows
  {
    var k := rows - 1 - y;
    assert k * cols >= 0;
    assert k * cols == cols * rows - cols - y * cols;
  }

  lemma CellInRange(cols: nat, rows: nat, i: nat)
    requires i < cols * rows
    ensures cols > 0 && InBounds(cols, rows, CellAt(cols, i)) && Number(cols, CellAt(cols, i)) == i
  {
    assert cols > 0;
    assert i == (i / cols) * cols + i % cols;
    MulBounds(i / cols - rows + 1, cols);
  }

  /** Cell (x, y) has number y * cols + x. */
  lemma RowMajor(cols: nat, rows: nat) returns (layout: Layout)
    requires cols > 0
    ensures layout.Valid() && |layout.cells| == cols * rows
    ensures forall c :: c in layout.index <==> InBounds(cols, rows, c)
    ensures forall c | c in layout.index :: layout.index[c] == Number(cols, c)
    ensures forall i | 0 <= i < cols * rows :: layout.cells[i] == CellAt(cols, i)
  {
    forall c | InBounds(cols, rows, c)
      ensures 0 <= Number(cols, c) < cols * rows && CellAt(cols, Number(cols, c)) == c
    {
      NumberInRange(cols, rows, c);
    }
    forall i | 0 <= i < cols * rows
      ensures InBounds(cols, rows, CellAt(cols, i)) && Number(cols, CellAt(cols, i)) == i
    {
      CellInRange(cols, rows, i);
    }
    var all := OpenCells(cols, rows, c => true);
    layout := Layout(seq(cols * rows, i requires 0 <= i < cols * rows => CellAt(cols, i)),
                     map c | c in all :: Number(cols, c));
  }

  /** Entries of the distance table are lengths of walks, and the start has distance 0. */
  ghost predicate Sound(open: set<Cell>, layout: Layout, start: Cell, d: seq<int>) {
    && layout.Valid() && |d| == |layout.cells|
    && open <= layout.index.Keys
    && start in layout.index && d[layout.index[start]] == 0
    && forall i {:trigger d[i]} | 0 <= i < |d| && d[i] >= 0 ::
         exists actions :: |actions| == d[i] && Reaches(open, start, layout.cells[i], actions)
  }

  /** The queue holds discovered cells of the current level and then of the next one. */
  ghost predicate Levels(d: seq<int>, queue: seq<int>, level: nat) {
    && (forall j {:trigger queue[j]} | 0 <= j < |queue| ::
          0 <= queue[j] < |d| && level <= d[queue[j]] <= level + 1)
    && (forall i, j {:trigger queue[i], queue[j]} | 0 <= i < j < |queue| ::
          0 <= queue[i] < |d| && 0 <= queue[j] < |d| && d[queue[i]] <= d[queue[j]])
    && (forall i {:trigger d[i]} | 0 <= i < |d| && d[i] >= 0 && i !in queue :: d[i] <= level)
  }

  /** Action a does not lead from cell i to a cell that is undiscovered or more than one level up. */
  ghost predicate Followed(open: set<Cell>, layout: Layout, d: seq<int>, i: int, a: int) {
    && 0 <= i < |d| == |layout.cells|
    && IsAction(a)
    && (Available(open, layout.cells[i], a) ==>
          && Go(layout.cells[i], a) in layout.index
          && layout.index[Go(layout.cells[i], a)] < |d|
          && 0 <= d[layout.index[Go(layout.cells[i], a)]] <= d[i] + 1)
  }

  /** Every discovered cell that left the queue, except `current`, has been expanded. */
  ghost predicate Settled(open: set<Cell>, layout: Layout, d: seq<int>, queue: seq<int>, current: int) {
    forall i, a {:trigger Followed(open, layout, d, i, a)}
      | 0 <= i < |d| && d[i] >= 0 && i !in queue && i != current && 1 <= a < 9 :: Followed(open, layout, d, i, a)
  }

  /** The expansion of `current` has got to action a. */
  ghost predicate Expanding(open: set<Cell>, layout: Layout, d: seq<int>, current: int, a: int) {
    forall b {:trigger Followed(open, layout, d, current, b)} | 1 <= b < a :: Followed(open, layout, d, current, b)
  }

  /** Below the current level the table already holds for every walk. */
  lemma {:induction false} WalksAreCovered(open: set<Cell>, layout: Layout, start: Cell, d: seq<int>,
                                           queue: seq<int>, current: int, level: nat, actions: seq<int>)
    requires Sound(open, layout, start, d) && Settled(open, layout, d, queue, current)
    requires forall i {:trigger d[i]} | 0 <= i < |d| && 0 <= d[i] < level :: i !in queue && i != current
    requires AreActions(actions) && |actions| <= level
    ensures var c := Walk(open, start, actions);
            c in layout.index && 0 <= d[layout.index[c]] <= |actions|
  {
    if actions != [] {
      var before, a := actions[..|actions| - 1], actions[|actions| - 1];
      WalksAreCovered(open, layout, start, d, queue, current, level, before);
      var c := Walk(open, start, before);
      if a != 0 && Available(open, c, a) {
        assert Followed(open, layout, d, layout.index[c], a);
      } else {
        assert Move(open, c, a) == c;
      }
    }
  }

  /** A table is exact at the first cell of its current level. */
  lemma LevelIsDistance(open: set<Cell>, layout: Layout, start: Cell, d: seq<int>, queue: seq<int>, current: int)
    requires Sound(open, layout, start, d) && Settled(open, layout, d, queue, current)
    requires 0 <= current < |d| && d[current] >= 0 && Levels(d, queue, d[current])
    ensures IsDistance(open, start, layout.cells[current], d[current])
  {
    forall actions | Reaches(open, start, layout.cells[current], actions)
      ensures |actions| >= d[current]
    {
      if |actions| < d[current] {
        WalksAreCovered(open, layout, start, d, queue, current, d[current], actions);
      }
    }
  }

  lemma DiscoverSound(open: set<Cell>, layout: Layout, start: Cell, d: seq<int>, current: int, a: int, next: int)
    requires Sound(open, layout, start, d) && 0 <= current < |d| && d[current] >= 0
    requires IsAction(a) && Available(open, layout.cells[current], a)
    requires 0 <= next < |d| && layout.cells[next] == Go(layout.cells[current], a) && d[next] < 0
    ensures Sound(open, layout, start, d[next := d[current] + 1])
  {
    var d' := d[next := d[current] + 1];
    forall i | 0 <= i < |d'| && d'[i] >= 0
      ensures exists actions :: |actions| == d'[i] && Reaches(open, start, layout.cells[i], actions)
    {
      if i == next {
        var actions :| |actions| == d[current] && Reaches(open, start, layout.cells[current], actions);
        assert (actions + [a])[..|actions|] == actions;
        assert Reaches(open, start, layout.cells[next], actions + [a]);
      } else {
        assert d[i] >= 0;
      }
    }
  }

  lemma DiscoverLevels(d: seq<int>, queue: seq<int>, level: nat, next: int)
    requires Levels(d, queue, level) && 0 <= next < |d| && d[next] < 0
    ensures Levels(d[next := level + 1], queue + [next], level)
  {
    forall i | 0 <= i < |d| && d[next := level + 1][i] >= 0 && i !in queue + [next]
      ensures d[next := level + 1][i] <= level
    {
      assert next in queue + [next];
      assert i !in queue;
    }
  }

  lemma DiscoverSettled(open: set<Cell>, layout: Layout, start: Cell, d: seq<int>, queue: seq<int>,
                        current: int, a: int, next: int)
    requires Sound(open, layout, start, d) && 0 <= current < |d| && d[current] >= 0
    requires Settled(open, layout, d, queue, current) && Expanding(open, layout, d, current, a)
    requires IsAction(a) && Available(open, layout.cells[current], a)
    requires 0 <= next < |d| && layout.cells[next] == Go(layout.cells[current], a) && d[next] < 0
    ensures var d' := d[next := d[current] + 1];
            Settled(open, layout, d', queue + [next], current) && Expanding(open, layout, d', current, a + 1)
  {
    var d', queue' := d[next := d[current] + 1], queue + [next];
    assert next in queue';
    forall i, b | 0 <= i < |d'| && d'[i] >= 0 && i !in queue' && i != current && 1 <= b < 9
      ensures Followed(open, layout, d', i, b)
    {
      assert i != next && i !in queue;
      assert Followed(open, layout, d, i, b);
    }
    forall b | 1 <= b < a + 1
      ensures Followed(open, layout, d', current, b)
    {
      assert b < a ==> Followed(open, layout, d, current, b);
    }
  }

  ghost function Unseen(d: seq<int>): set<int> {
    set i | 0 <= i < |d| && d[i] < 0
  }

  lemma FewerUnseen(d: seq<int>, i: int, v: nat)
    requires 0 <= i < |d| && d[i] < 0
    ensures |Unseen(d[i := v])| + 1 == |Unseen(d)|
  {
    assert Unseen(d) == Unseen(d[i := v]) + {i};
  }

  /** When nothing is queued, the discovered cells are all the cells a walk can lead to. */
  lemma ExhaustedIsUnreachable(open: set<Cell>, layout: Layout, start: Cell, goal: Cell, d: seq<int>)
    requires Sound(open, layout, start, d) && Settled(open, layout, d, [], -1)
    requires goal in layout.index && d[layout.index[goal]] < 0
    ensures Unreachable(open, start, goal)
  {
    forall actions | AreActions(actions)
      ensures Walk(open, start, actions) != goal
    {
      WalksAreCovered(open, layout, start, d, [], -1, |actions|, actions);
    }
  }

  /** Taking the first queued cell moves the table on to that cell's level. */
  lemma Dequeue(open: set<Cell>, layout: Layout, d: seq<int>, queue: seq<int>, level: nat)
    requires Levels(d, queue, level) && Settled(open, layout, d, queue, -1) && queue != []
    ensures 0 <= queue[0] < |d| && level <= d[queue[0]]
    ensures Levels(d, queue[1..], d[queue[0]]) && Settled(open, layout, d, queue[1..], queue[0])
  {
    var rest, current := queue[1..], queue[0];
    forall i | 0 <= i < |d| && i !in rest && i != current
      ensures i !in queue
    {
    }
    assert forall j {:trigger rest[j]} | 0 <= j < |rest| :: rest[j] == queue[j + 1];
    assert Settled(open, layout, d, rest, current);
  }

  /** The shortest number of actions from start to goal, or -1 when no actions lead there. */
  method BreadthFirst(cols: nat, rows: nat, walkable: Cell -> bool, start: Cell, goal: Cell) returns (steps: int)
    requires InBounds(cols, rows, start) && InBounds(cols, rows, goal)
    requires forall c | walkable(c) :: InBounds(cols, rows, c)
    ensures steps >= 0 ==> IsDistance(OpenCells(cols, rows, walkable), start, goal, steps)
    ensures steps < 0 ==> steps == -1 && Unreachable(OpenCells(cols, rows, walkable), start, goal)
  {
    ghost var open := OpenCells(cols, rows, walkable);
    ghost var layout := RowMajor(cols, rows);
    var distance := new int[cols * rows](_ => -1);
    var first, target := Number(cols, start), Number(cols, goal);
    assert first == layout.index[start] && target == layout.index[goal];
    distance[first] := 0;
    var queue := [first];
    ghost var level: nat, d := 0, distance[..];
    assert Reaches(open, start, start, []);
    while queue != []
      invariant d == distance[..]
      invariant Sound(open, layout, start, d)
      invariant Levels(d, queue, level)
      invariant Settled(open, layout, d, queue, -1)
      invariant d[target] >= 0 ==> target in queue
      decreases |Unseen(d)| + |queue|
    {
      Dequeue(open, layout, d, queue, level);
      var current := queue[0];
      level := d[current];
      queue := queue[1..];
      if current == target {
        LevelIsDistance(open, layout, start, d, queue, current);
        return distance[current];
      }
      d, queue := Expand(cols, rows, walkable, open, layout, start, current, target, distance, d, queue);
    }
    ExhaustedIsUnreachable(open, layout, start, goal, d);
    return -1;
  }

  /** What one expansion keeps while it goes through the actions. */
  ghost predicate Midway(open: set<Cell>, layout: Layout, start: Cell, current: int, target: int, a: int,
                         level: int, d: seq<int>, queue: seq<int>)
  {
    && Sound(open, layout, start, d)
    && 0 <= current < |d| && d[current] == level >= 0
    && Levels(d, queue, level)
    && Settled(open, layout, d, queue, current)
    && Expanding(open, layout, d, current, a)
    && 0 <= target < |d| && (d[target] >= 0 ==> target in queue)
  }

  /** One turn of the search loop: every open neighbour of `current` not seen before joins the queue. */
  method Expand(cols: nat, rows: nat, walkable: Cell -> bool, ghost open: set<Cell>, ghost layout: Layout,
                ghost start: Cell, current: int, ghost target: int, distance: array<int>, ghost before: seq<int>,
                queue: seq<int>)
    returns (ghost d: seq<int>, grown: seq<int>)
    requires open == OpenCells(cols, rows, walkable) && cols > 0
    requires forall c | walkable(c) :: InBounds(cols, rows, c)
    requires distance[..] == before && 0 <= current < |before|
    requires Midway(open, layout, start, current, target, 1, before[current], before, queue)
    requires layout.cells[current] == CellAt(cols, current)
    requires forall c :: c in layout.index <==> InBounds(cols, rows, c)
    requires forall c | c in layout.index :: layout.index[c] == Number(cols, c)
    modifies distance
    ensures distance[..] == d
    ensures Midway(open, layout, start, current, target, 9, before[current], d, grown)
    ensures Settled(open, layout, d, grown, -1)
    ensures |Unseen(d)| + |grown| == |Unseen(before)| + |queue|
  {
    d, grown := before, queue;
    var gx, gy := current % cols, current / cols;
    for action := 1 to 9
      invariant d == distance[..]
      invariant Midway(open, layout, start, current, target, action, before[current], d, grown)
      invariant |Unseen(d)| + |grown| == |Unseen(before)| + |queue|
    {
      var free, cell := FreeStep(cols, rows, walkable, gx, gy, action);
      if !free {
        Blocked(open, layout, start, current, target, action, before[current], d, grown);
        continue;
      }
      var next := Number(cols, cell);
      assert layout.cells[layout.index[cell]] == cell;
      if distance[next] >= 0 {
        AlreadySeen(open, layout, start, current, target, action, before[current], d, grown, next);
        continue;
      }
      Discover(open, layout, start, current, target, action, before[current], d, grown, next);
      distance[next] := distance[current] + 1;
      d := d[next := d[current] + 1];
      grown := grown + [next];
    }
  }

  /** The neighbour an action leads to, and whether the corner-cut rule lets the search go there. */
  method FreeStep(cols: nat, rows: nat, walkable: Cell -> bool, gx: int, gy: int, action: int)
    returns (free: bool, cell: Cell)
    requires IsAction(action)
    requires forall c | walkable(c) :: InBounds(cols, rows, c)
    ensures cell == Go(Cell(gx, gy), action)
    ensures free <==> Available(OpenCells(cols, rows, walkable), Cell(gx, gy), action)
  {
    var (dx, dy) := DIRECTIONS[action];
    cell := Cell(gx + dx, gy + dy);
    if !walkable(cell) {
      return false, cell;
    }
    if dx != 0 && dy != 0 && (!walkable(Cell(gx + dx, gy)) || !walkable(Cell(gx, gy + dy))) {
      return false, cell;
    }
    return true, cell;
  }

  lemma Blocked(open: set<Cell>, layout: Layout, start: Cell, current: int, target: int, a: int, level: int,
                d: seq<int>, queue: seq<int>)
    requires Midway(open, layout, start, current, target, a, level, d, queue)
    requires IsAction(a) && !Available(open, layout.cells[current], a)
    ensures Midway(open, layout, start, current, target, a + 1, level, d, queue)
  {
    assert Followed(open, layout, d, current, a);
  }

  /** A neighbour that was seen before is at most one level up. */
  lemma AlreadySeen(open: set<Cell>, layout: Layout, start: Cell, current: int, target: int, a: int, level: int,
                    d: seq<int>, queue: seq<int>, next: int)
    requires Midway(open, layout, start, current, target, a, level, d, queue)
    requires IsAction(a) && 0 <= next < |d| && d[next] >= 0 && layout.cells[next] == Go(layout.cells[current], a)
    ensures Midway(open, layout, start, current, target, a + 1, level, d, queue)
  {
    if next in queue {
      var j :| 0 <= j < |queue| && queue[j] == next;
      assert d[queue[j]] <= level + 1;
    }
    assert Followed(open, layout, d, current, a);
  }

  lemma Discover(open: set<Cell>, layout: Layout, start: Cell, current: int, target: int, a: int, level: int,
                 d: seq<int>, queue: seq<int>, next: int)
    requires Midway(open, layout, start, current, target, a, level, d, queue)
    requires IsAction(a) && Available(open, layout.cells[current], a)
    requires 0 <= next < |d| && d[next] < 0 && layout.cells[next] == Go(layout.cells[current], a)
    ensures Midway(open, layout, start, current, target, a + 1, level, d[next := level + 1], queue + [next])
    ensures |Unseen(d[next := level + 1])| + 1 == |Unseen(d)|
  {
    DiscoverSound(open, layout, start, d, current, a, next);
    DiscoverLevels(d, queue, level, next);
    DiscoverSettled(open, layout, start, d, queue, current, a, next);
    FewerUnseen(d, next, level + 1);
  }
}
