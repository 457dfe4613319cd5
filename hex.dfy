/** The shared data model of the hexagonal board: the cell record, the grid
    of cells, positions, the two neighbour-offset tables and the bounds tests
    the board code performs. */
module Hex {

  /** One hexagonal cell: the TypeScript `Cell` type without its pixel
      coordinates x and y. */
  datatype Cell = Cell(
    row: int,
    col: int,
    isFlag: bool,
    isBomb: bool,
    isRevealed: bool,
    value: int)

  /** The board, row-major: board[row][col]. */
  type Grid = seq<seq<Cell>>

  /** A (row, column) position; the source encodes it as the string "row,col",
      which is injective on integers, so a pair is the same key. */
  type Pos = (int, int)

  /** A neighbour-offset table: a sequence of (dy, dx) pairs. */
  type Offsets = seq<(int, int)>

  /** The offset tables used for even and odd columns. Their defining file is
      not part of this model; these are the usual tables for a layout whose odd
      columns are shifted down by half a cell. No proof depends on them. */
  const EvenColOffsets: Offsets := [(-1, 0), (1, 0), (-1, -1), (0, -1), (-1, 1), (0, 1)]
  const OddColOffsets: Offsets := [(-1, 0), (1, 0), (0, -1), (1, -1), (0, 1), (1, 1)]

  /** JavaScript's `%`: the remainder of the division truncated toward zero,
      which takes the sign of the dividend. */
  function JsRem(a: int, b: int): int
    requires b != 0
  {
    var m := (if a < 0 then -a else a) % (if b < 0 then -b else b);
    if a < 0 then -m else m
  }

  /** The table chosen by the test `n % 2 === 0 ? evenColOffsets : oddColOffsets`.
      Dafny's `%` is Euclidean, so the contract states the choice with
      JavaScript's truncating `%`: the two agree for every integer n. */
  function OffsetsFor(n: int): (offsets: Offsets)
    ensures offsets == if JsRem(n, 2) == 0 then EvenColOffsets else OddColOffsets
  {
    if n % 2 == 0 then EvenColOffsets else OddColOffsets
  }

  /** The position reached from p by one offset. */
  function Shift(p: Pos, d: (int, int)): Pos {
    (p.0 + d.0, p.1 + d.1)
  }

  /** The width the board code reads, `board[0].length`. */
  function Width(b: Grid): nat {
    if |b| == 0 then 0 else |b[0]|
  }

  /** Every row has the width of the first one. */
  ghost predicate Rectangular(b: Grid) {
    forall i :: 0 <= i < |b| ==> |b[i]| == Width(b)
  }

  /** b has exactly rows rows of columns cells each. */
  ghost predicate IsGrid(b: Grid, rows: nat, columns: nat) {
    |b| == rows && forall i :: 0 <= i < |b| ==> |b[i]| == columns
  }

  /** The bounds check of the board code against `board.length` and
      `board[0].length`. On a rectangular board it holds exactly when the
      indexed cell exists. */
  predicate Within(b: Grid, p: Pos): (r: bool)
    ensures Rectangular(b) ==> (r <==> InGrid(b, p))
  {
    var ok := 0 <= p.0 < |b| && 0 <= p.1 < Width(b);
    assert Rectangular(b) && 0 <= p.0 < |b| ==> |b[p.0]| == Width(b);
    ok
  }

  /** The bounds check against given dimensions, `rows` and `columns`: it holds
      exactly on the positions of a rows x columns board. */
  predicate InRange(p: Pos, rows: nat, columns: nat): (r: bool)
    ensures r <==> p in Cells(rows, columns)
  {
    0 <= p.0 < rows && 0 <= p.1 < columns
  }

  /** b[p.0][p.1] exists. */
  predicate InGrid(b: Grid, p: Pos) {
    0 <= p.0 < |b| && 0 <= p.1 < |b[p.0]|
  }

  /** The cell at p is a bomb (false off the board). */
  predicate BombAt(b: Grid, p: Pos) {
    InGrid(b, p) && b[p.0][p.1].isBomb
  }

  /** The set of positions holding a bomb. */
  ghost function BombSet(b: Grid): set<Pos> {
    set i, j | 0 <= i < |b| && 0 <= j < |b[i]| && b[i][j].isBomb :: (i, j)
  }

  /** All positions of a rows x columns board. */
  ghost function Cells(rows: nat, columns: nat): set<Pos> {
    set i, j | 0 <= i < rows && 0 <= j < columns :: (i, j)
  }

  /** The positions (r, 0) .. (r, n - 1). */
  ghost function RowCells(r: int, n: nat): set<Pos> {
    set j | 0 <= j < n :: (r, j)
  }

  lemma {:induction false} RowCellsSize(r: int, n: nat)
    ensures |RowCells(r, n)| == n
  {
    if n > 0 {
      RowCellsSize(r, n - 1);
      assert RowCells(r, n) == RowCells(r, n - 1) + {(r, n - 1)};
    } else {
      assert RowCells(r, n) == {};
    }
  }

  /** One distributivity step, kept apart from the set reasoning of CellsSize
      so that the solver proves it in a small context. */
  lemma MulSucc(a: nat, b: nat)
    ensures a * b + b == (a + 1) * b
  {
  }

  /** A rows x columns board has rows * columns positions. */
  lemma {:induction false} CellsSize(rows: nat, columns: nat)
    ensures |Cells(rows, columns)| == rows * columns
  {
    if rows == 0 {
      assert Cells(rows, columns) == {};
    } else {
      var upper, last := Cells(rows - 1, columns), RowCells(rows - 1, columns);
      CellsSize(rows - 1, columns);
      RowCellsSize(rows - 1, columns);
      assert Cells(rows, columns) == upper + last by {
        forall q | q in Cells(rows, columns) ensures q in upper + last {
          if q.0 < rows - 1 { assert q in upper; } else { assert q in last; }
        }
      }
      assert upper !! last;
      calc {
        |Cells(rows, columns)|;
        |upper| + |last|;
        (rows - 1) * columns + columns;
        { MulSucc(rows - 1, columns); }
        rows * columns;
      }
    }
  }
}
