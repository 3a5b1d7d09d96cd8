/** The obstacle bitmap between the generator and the client: row-major bytes, as hexadecimal text. */
module Bitmap {
  import opened Moves
  import opened ShortestPath
  import opened Wrappers
  import MazeEnv
  import Generator

  // ---- The generator's side ----

  predicate Consistent(rows: seq<seq<bool>>, cols: nat, count: nat) {
    |rows| == count && forall y | 0 <= y < |rows| :: |rows[y]| == cols
  }

  /** All rows one after the other. */
  function Flatten<T>(rows: seq<seq<T>>): seq<T> {
    if rows == [] then [] else Flatten(rows[..|rows| - 1]) + rows[|rows| - 1]
  }

  lemma {:induction false} FlattenLength<T>(rows: seq<seq<T>>, cols: nat)
    requires forall y | 0 <= y < |rows| :: |rows[y]| == cols
    ensures |Flatten(rows)| == cols * |rows|
  {
    if rows != [] {
      FlattenLength(rows[..|rows| - 1], cols);
      assert cols * |rows| == cols * (|rows| - 1) + cols;
    }
  }

  /** Cell (x, y) is at place y * cols + x. */
  lemma {:induction false} FlattenAt<T>(rows: seq<seq<T>>, cols: nat, c: Cell)
    requires forall y | 0 <= y < |rows| :: |rows[y]| == cols
    requires InBounds(cols, |rows|, c)
    ensures 0 <= Number(cols, c) < |Flatten(rows)| && Flatten(rows)[Number(cols, c)] == rows[c.y][c.x]
  {
    var before := rows[..|rows| - 1];
    FlattenLength(before, cols);
    assert Flatten(rows) == Flatten(before) + rows[|rows| - 1];
    if c.y < |rows| - 1 {
      FlattenAt(before, cols, c);
    } else {
      assert c.y * cols == cols * |before|;
    }
  }

  type Byte = b: nat | b < 256

  function ByteOf(value: bool): Byte { if value then 1 else 0 }

  function BytesOf(bits: seq<bool>): seq<Byte> {
    seq(|bits|, i requires 0 <= i < |bits| => ByteOf(bits[i]))
  }

  /** A byte for each cell, 1 where it is blocked, at place y * cols + x. */
  ghost predicate RowMajor(rows: seq<seq<bool>>, cols: nat, bytes: seq<Byte>) {
    && |bytes| == cols * |rows|
    && forall c: Cell | 0 <= c.x < cols && 0 <= c.y < |rows| && |rows[c.y]| == cols ::
         var place := Number(cols, c);
         place == c.y * cols + c.x && 0 <= place < |bytes| && bytes[place] == if rows[c.y][c.x] then 1 else 0
  }

  lemma FlattenIsRowMajor(rows: seq<seq<bool>>, cols: nat)
    requires forall y | 0 <= y < |rows| :: |rows[y]| == cols
    ensures RowMajor(rows, cols, BytesOf(Flatten(rows)))
  {
    FlattenLength(rows, cols);
    forall c: Cell | 0 <= c.x < cols && 0 <= c.y < |rows|
      ensures 0 <= Number(cols, c) < |Flatten(rows)| && Flatten(rows)[Number(cols, c)] == rows[c.y][c.x]
    {
      FlattenAt(rows, cols, c);
    }
  }

  /** One byte per cell in row-major order; a grid of other dimensions is an error. */
  method BlockedBitmapBytes(blocked: seq<seq<bool>>, cols: nat, count: nat) returns (bytes: Option<seq<Byte>>)
    ensures bytes.Some? <==> Consistent(blocked, cols, count)
    ensures bytes.Some? ==> bytes.value == BytesOf(Flatten(blocked))
    ensures bytes.Some? ==> RowMajor(blocked, cols, bytes.value)
  {
    if |blocked| != count {
      return None;
    }
    for y := 0 to count
      invariant forall j | 0 <= j < y :: |blocked[j]| == cols
    {
      if |blocked[y]| != cols {
        return None;
      }
    }
    var all: seq<Byte> := [];
    for gy := 0 to count
      invariant all == BytesOf(Flatten(blocked[..gy]))
    {
      for gx := 0 to cols
        invariant all == BytesOf(Flatten(blocked[..gy]) + blocked[gy][..gx])
      {
        all := all + [if blocked[gy][gx] then 1 else 0];
      }
      assert blocked[..gy + 1][..gy] == blocked[..gy];
      assert blocked[gy][..cols] == blocked[gy];
      assert Flatten(blocked[..gy + 1]) == Flatten(blocked[..gy]) + blocked[gy];
    }
    assert blocked[..count] == blocked;
    FlattenIsRowMajor(blocked, cols);
    return Some(all);
  }

  function Digit(d: nat): char
    requires d < 16
  {
    if d < 10 then '0' + d as char else 'a' + (d - 10) as char
  }

  /** Two lower-case digits per byte. */
  function Hex(bytes: seq<Byte>): (s: string)
    ensures |s| == 2 * |bytes|
    ensures forall i {:trigger bytes[i]} | 0 <= i < |bytes| ::
              s[2 * i] == Digit(bytes[i] / 16) && s[2 * i + 1] == Digit(bytes[i] % 16)
  {
    if bytes == [] then ""
    else
      var last := bytes[|bytes| - 1];
      Hex(bytes[..|bytes| - 1]) + [Digit(last / 16), Digit(last % 16)]
  }

  function Encoded(bits: seq<bool>): string {
    Hex(BytesOf(bits))
  }

  lemma EncodedAt(bits: seq<bool>, i: nat)
    requires i < |bits|
    ensures |Encoded(bits)| == 2 * |bits|
    ensures Encoded(bits)[2 * i] == '0' && Encoded(bits)[2 * i + 1] == if bits[i] then '1' else '0'
  {
    assert BytesOf(bits)[i] == ByteOf(bits[i]);
  }

  // ---- The client's side ----

  function HexValue(c: char): int {
    if '0' <= c <= '9' then c as int - '0' as int
    else if 'a' <= c <= 'f' then c as int - 'a' as int + 10
    else if 'A' <= c <= 'F' then c as int - 'A' as int + 10
    else -1
  }

  /** Reads `size` cells; every text that no grid of this size encodes to is refused. */
  method DecodeBitmap(hex: string, size: nat) returns (blocked: Option<seq<bool>>)
    ensures blocked.Some? ==> |blocked.value| == size && Encoded(blocked.value) == hex
    ensures blocked.None? ==> forall bits | |bits| == size :: Encoded(bits) != hex
  {
    if |hex| != size * 2 {
      return None;
    }
    var cells := seq(size, _ => false);
    for index := 0 to size
      invariant |cells| == size
      invariant forall i | 0 <= i < index :: hex[2 * i] == '0' && hex[2 * i + 1] == if cells[i] then '1' else '0'
    {
      var high, low := HexValue(hex[index * 2]), HexValue(hex[index * 2 + 1]);
      if high != 0 || (low != 0 && low != 1) {
        NotEncoded(hex, size, index);
        return None;
      }
      cells := cells[index := low == 1];
    }
    SameText(hex, cells);
    return Some(cells);
  }

  lemma NotEncoded(hex: string, size: nat, index: nat)
    requires |hex| == 2 * size && index < size
    requires HexValue(hex[2 * index]) != 0 || HexValue(hex[2 * index + 1]) !in {0, 1}
    ensures forall bits | |bits| == size :: Encoded(bits) != hex
  {
    forall bits | |bits| == size
      ensures Encoded(bits) != hex
    {
      EncodedAt(bits, index);
    }
  }

  lemma SameText(hex: string, bits: seq<bool>)
    requires |hex| == 2 * |bits|
    requires forall i | 0 <= i < |bits| :: hex[2 * i] == '0' && hex[2 * i + 1] == if bits[i] then '1' else '0'
    ensures Encoded(bits) == hex
  {
    forall j | 0 <= j < |hex|
      ensures Encoded(bits)[j] == hex[j]
    {
      EncodedAt(bits, j / 2);
      assert j == 2 * (j / 2) || j == 2 * (j / 2) + 1;
    }
  }

  /** Different grids of one size have different texts, so decoding inverts encoding. */
  lemma EncodingIsInjective(a: seq<bool>, b: seq<bool>)
    requires Encoded(a) == Encoded(b)
    ensures a == b
  {
    assert |Encoded(a)| == 2 * |a| && |Encoded(b)| == 2 * |b|;
    forall i | 0 <= i < |a|
      ensures a[i] == b[i]
    {
      EncodedAt(a, i);
      EncodedAt(b, i);
    }
  }

  // ---- Both sides together ----

  /** The rows of the generator's grid. */
  ghost predicate RowsShow(rows: seq<seq<bool>>, dim: nat, open: set<Cell>) {
    && Consistent(rows, dim, dim)
    && (forall c | c in open :: InBounds(dim, dim, c))
    && forall c | InBounds(dim, dim, c) :: rows[c.y][c.x] <==> c !in open
  }

  /** What the client decodes from the generator's text is the same set of open cells, and both
      programs measure the same shortest length on it. */
  lemma ClientSeesTheSameMap(rows: seq<seq<bool>>, dim: nat, open: set<Cell>, decoded: seq<bool>, start: Cell,
                             goal: Cell, generated: int, recomputed: int)
    requires RowsShow(rows, dim, open) && Encoded(decoded) == Encoded(Flatten(rows))
    requires Generator.Measured(open, start, goal, generated)
    requires var maze := MazeEnv.Maze(dim, dim, decoded, start, goal);
             maze.Valid() ==> Generator.Measured(maze.Open(), start, goal, recomputed)
    ensures var maze := MazeEnv.Maze(dim, dim, decoded, start, goal);
            maze.Valid() && maze.Open() == open
    ensures generated == recomputed
  {
    EncodingIsInjective(decoded, Flatten(rows));
    FlattenLength(rows, dim);
    var maze := MazeEnv.Maze(dim, dim, decoded, start, goal);
    assert maze.Valid();
    forall c
      ensures maze.Walkable(c) <==> c in open
    {
      if InBounds(dim, dim, c) {
        FlattenAt(rows, dim, c);
      }
    }
    assert maze.Open() == open;
    MeasuredIsUnique(open, start, goal, generated, recomputed);
  }

  lemma MeasuredIsUnique(open: set<Cell>, start: Cell, goal: Cell, a: int, b: int)
    requires Generator.Measured(open, start, goal, a) && Generator.Measured(open, start, goal, b)
    ensures a == b
  {
    if a >= 0 && b >= 0 {
      var p :| |p| == a && Reaches(open, start, goal, p);
      var q :| |q| == b && Reaches(open, start, goal, q);
    }
  }
}
