/** Board construction and mine placement: createBoard, countBombs,
    installBombs and handleRestart of the managing component. */
module ManageBoard {
  import opened Hex
  import Board

  /** The round's state. */
  datatype GameState = Playing | GameOver | GameClear

  // --- createBoard -----------------------------------------------------------

  /** rows rows of columns cells; the cell at [r][c] knows its own row r and
      column c, is not flagged, not a bomb, not revealed, and has value 0. */
  ghost predicate IsBlank(b: Grid, rows: nat, columns: nat) {
    IsGrid(b, rows, columns) &&
    forall r, c :: 0 <= r < rows && 0 <= c < columns ==>
      b[r][c] == Cell(r, c, false, false, false, 0)
  }

  method CreateBoard(rows: nat, columns: nat) returns (board: Grid)
    ensures IsBlank(board, rows, columns)
    ensures Rectangular(board)
  {
    board := [];
    var row := 0;
    while row < rows
      invariant row <= rows
      invariant IsBlank(board, row, columns)
    {
      var rowCells: seq<Cell> := [];
      var col := 0;
      while col < columns
        invariant col <= columns
        invariant |rowCells| == col
        invariant forall c :: 0 <= c < col ==> rowCells[c] == Cell(row, c, false, false, false, 0)
      {
        rowCells := rowCells + [Cell(row, col, false, false, false, 0)];
        col := col + 1;
      }
      board := board + [rowCells];
      row := row + 1;
    }
  }

  // --- countBombs ------------------------------------------------------------

  /** Indices below n of the offsets that land, in bounds, on a bomb. */
  ghost function BombHits(board: Grid, p: Pos, offsets: Offsets, n: nat): set<nat> {
    set k: nat | k < n && k < |offsets| &&
      Within(board, Shift(p, offsets[k])) && BombAt(board, Shift(p, offsets[k]))
  }

  /** The number of offsets of the table that land, in bounds, on a bomb. */
  ghost function BombsAround(board: Grid, p: Pos, offsets: Offsets): nat {
    |BombHits(board, p, offsets, |offsets|)|
  }

  lemma {:induction false} BombHitsBound(board: Grid, p: Pos, offsets: Offsets, n: nat)
    ensures |BombHits(board, p, offsets, n)| <= n
  {
    if n > 0 {
      BombHitsBound(board, p, offsets, n - 1);
      assert BombHits(board, p, offsets, n) <= BombHits(board, p, offsets, n - 1) + {n - 1};
      SubsetSize(BombHits(board, p, offsets, n), BombHits(board, p, offsets, n - 1) + {n - 1});
    } else {
      assert BombHits(board, p, offsets, n) == {};
    }
  }

  /** A cell's count is between 0 and the length of its offset table. */
  lemma BombsAroundBound(board: Grid, p: Pos, offsets: Offsets)
    ensures 0 <= BombsAround(board, p, offsets) <= |offsets|
  {
    BombHitsBound(board, p, offsets, |offsets|);
  }

  lemma SubsetSize<T>(a: set<T>, b: set<T>)
    requires a <= b
    ensures |a| <= |b|
  {
    assert b == a + (b - a);
  }

  /** Boards of the same shape with the same bombs give the same counts. */
  lemma SameBombsSameCount(a: Grid, b: Grid, p: Pos, offsets: Offsets)
    requires |a| == |b| && forall i :: 0 <= i < |a| ==> |a[i]| == |b[i]|
    requires forall i, j :: 0 <= i < |a| && 0 <= j < |a[i]| ==> a[i][j].isBomb == b[i][j].isBomb
    ensures BombsAround(a, p, offsets) == BombsAround(b, p, offsets)
  {
    assert BombHits(a, p, offsets, |offsets|) == BombHits(b, p, offsets, |offsets|);
  }

  /** One more offset adds its index exactly when it lands, in bounds, on a bomb. */
  lemma BombHitsStep(board: Grid, p: Pos, offsets: Offsets, i: nat)
    requires i < |offsets|
    ensures BombHits(board, p, offsets, i + 1) ==
      BombHits(board, p, offsets, i) +
      (if Within(board, Shift(p, offsets[i])) && BombAt(board, Shift(p, offsets[i])) then {i} else {})
  {
  }

  /** The inner loop of countBombs: count the in-bounds bomb neighbours of p. */
  method CountAround(board: Grid, p: Pos, offsets: Offsets) returns (count: nat)
    requires Rectangular(board)
    ensures count == BombsAround(board, p, offsets)
  {
    count := 0;
    for i := 0 to |offsets|
      invariant count == |BombHits(board, p, offsets, i)|
    {
      var q := Shift(p, offsets[i]);
      BombHitsStep(board, p, offsets, i);
      if 0 <= q.0 < |board| && 0 <= q.1 < |board[0]| {
        if board[q.0][q.1].isBomb {
          count := count + 1;
        }
      }
    }
  }

  /** The first n cells of rowCells are those of row `row` of board with
      their values recounted. */
  ghost predicate RecountedCells(board: Grid, row: nat, rowCells: seq<Cell>, n: nat)
    requires row < |board|
  {
    n <= |board[row]| && |rowCells| == n &&
    forall c {:trigger rowCells[c]} :: 0 <= c < n ==>
      rowCells[c] == board[row][c].(value := BombsAround(board, (row, c), OffsetsFor(c)))
  }

  lemma RecountedCellsAppend(board: Grid, row: nat, rowCells: seq<Cell>, n: nat, count: nat)
    requires row < |board| && RecountedCells(board, row, rowCells, n) && n < |board[row]|
    requires count == BombsAround(board, (row, n), OffsetsFor(n))
    ensures RecountedCells(board, row, rowCells + [board[row][n].(value := count)], n + 1)
  {
    var cells' := rowCells + [board[row][n].(value := count)];
    forall c | 0 <= c < n + 1
      ensures cells'[c] == board[row][c].(value := BombsAround(board, (row, c), OffsetsFor(c)))
    {
      if c < n { assert cells'[c] == rowCells[c]; }
    }
  }

  /** One row of countBombs. */
  method CountRow(board: Grid, row: nat) returns (rowCells: seq<Cell>)
    requires Rectangular(board) && row < |board|
    ensures RecountedCells(board, row, rowCells, |board[row]|)
  {
    rowCells := [];
    for col := 0 to |board[row]|
      invariant RecountedCells(board, row, rowCells, col)
    {
      var count := CountAround(board, (row, col), OffsetsFor(col));
      RecountedCellsAppend(board, row, rowCells, col, count);
      rowCells := rowCells + [board[row][col].(value := count)];
    }
  }

  /** Every cell's value is the number of its in-bounds neighbours, by the
      table of its own column's parity, that hold a bomb. */
  ghost predicate Counted(b: Grid) {
    forall r, c {:trigger b[r][c].value} :: 0 <= r < |b| && 0 <= c < |b[r]| ==>
      b[r][c].value == BombsAround(b, (r, c), OffsetsFor(c))
  }

  /** The first n rows of next are those of board with every value recounted
      from the bombs of board. */
  ghost predicate RecountedRows(board: Grid, next: Grid, n: nat) {
    n <= |board| && |next| == n &&
    (forall r :: 0 <= r < n ==> |next[r]| == |board[r]|) &&
    forall r, c {:trigger next[r][c]} :: 0 <= r < n && 0 <= c < |board[r]| ==>
      next[r][c] == board[r][c].(value := BombsAround(board, (r, c), OffsetsFor(c)))
  }

  lemma RecountedAppend(board: Grid, next: Grid, n: nat, rowCells: seq<Cell>)
    requires RecountedRows(board, next, n) && n < |board|
    requires RecountedCells(board, n, rowCells, |board[n]|)
    ensures RecountedRows(board, next + [rowCells], n + 1)
  {
    var next' := next + [rowCells];
    forall r, c | 0 <= r < n + 1 && 0 <= c < |board[r]|
      ensures next'[r][c] == board[r][c].(value := BombsAround(board, (r, c), OffsetsFor(c)))
    {
      if r < n { assert next'[r] == next[r]; } else { assert next'[r] == rowCells; }
    }
  }

  /** Recounting keeps the bombs, so the recounted board is counted. */
  lemma RecountedIsCounted(board: Grid, next: Grid)
    requires RecountedRows(board, next, |board|)
    ensures Counted(next)
  {
    forall r, c | 0 <= r < |next| && 0 <= c < |next[r]|
      ensures next[r][c].value == BombsAround(next, (r, c), OffsetsFor(c))
    {
      SameBombsSameCount(board, next, (r, c), OffsetsFor(c));
    }
  }

  /** countBombs: recompute every value from the bombs of the given board; the
      shape and every other field stay. */
  method CountBombs(board: Grid) returns (newBoard: Grid)
    requires Rectangular(board)
    ensures RecountedRows(board, newBoard, |board|)
    ensures Counted(newBoard)
  {
    newBoard := [];
    for row := 0 to |board|
      invariant RecountedRows(board, newBoard, row)
    {
      var rowCells := CountRow(board, row);
      RecountedAppend(board, newBoard, row, rowCells);
      newBoard := newBoard + [rowCells];
    }
    RecountedIsCounted(board, newBoard);
  }

  /** Every value after countBombs lies between 0 and the table length. */
  lemma CountedBound(b: Grid, r: int, c: int)
    requires Counted(b) && InGrid(b, (r, c))
    ensures 0 <= b[r][c].value <= |OffsetsFor(c)|
  {
    BombsAroundBound(b, (r, c), OffsetsFor(c));
  }

  // --- installBombs ----------------------------------------------------------

  /** The first n offsets' in-range targets from the trigger (y, x). */
  ghost function ExcludedBelow(y: int, x: int, rows: nat, columns: nat, offsets: Offsets, n: nat): set<Pos> {
    set k | 0 <= k < n && k < |offsets| && InRange(Shift((y, x), offsets[k]), rows, columns) ::
      Shift((y, x), offsets[k])
  }

  /** The trigger cell and its in-range neighbours by the table offsets. */
  ghost function Excluded(y: int, x: int, rows: nat, columns: nat, offsets: Offsets): set<Pos> {
    {(y, x)} + ExcludedBelow(y, x, rows, columns, offsets, |offsets|)
  }

  lemma ExcludedStep(y: int, x: int, rows: nat, columns: nat, offsets: Offsets, i: nat)
    requires i < |offsets|
    ensures ExcludedBelow(y, x, rows, columns, offsets, i + 1) ==
      ExcludedBelow(y, x, rows, columns, offsets, i) +
      (if InRange(Shift((y, x), offsets[i]), rows, columns) then {Shift((y, x), offsets[i])} else {})
  {
  }

  /** The first loop of installBombs: fill the exclusion set. */
  method CollectExcluded(y: int, x: int, rows: nat, columns: nat, offsets: Offsets)
    returns (excludePositions: set<Pos>)
    ensures excludePositions == Excluded(y, x, rows, columns, offsets)
  {
    excludePositions := {(y, x)};
    for i := 0 to |offsets|
      invariant excludePositions == {(y, x)} + ExcludedBelow(y, x, rows, columns, offsets, i)
    {
      var next := Shift((y, x), offsets[i]);
      ExcludedStep(y, x, rows, columns, offsets, i);
      if 0 <= next.0 < rows && 0 <= next.1 < columns {
        excludePositions := excludePositions + {next};
      }
    }
  }

  /** The distinct positions among the first n draws that are not excluded. */
  ghost function Eligible(draws: seq<Pos>, exclude: set<Pos>, n: nat): set<Pos> {
    set k | 0 <= k < n && k < |draws| && draws[k] !in exclude :: draws[k]
  }

  ghost predicate DrawsInRange(draws: seq<Pos>, rows: nat, columns: nat) {
    forall k :: 0 <= k < |draws| ==> InRange(draws[k], rows, columns)
  }

  /** bombs is what rejection sampling collects from draws: the eligible draws
      up to and including the first draw that brings the set to total. */
  ghost predicate SampledFrom(bombs: set<Pos>, draws: seq<Pos>, exclude: set<Pos>, total: nat) {
    exists n :: 0 <= n <= |draws| && bombs == Eligible(draws, exclude, n) &&
      forall m :: 0 <= m < n ==> |Eligible(draws, exclude, m)| < total
  }

  /** Taking one more draw adds it to the eligible set unless it is excluded. */
  lemma EligibleStep(draws: seq<Pos>, exclude: set<Pos>, i: nat)
    requires i < |draws|
    ensures Eligible(draws, exclude, i + 1) ==
      Eligible(draws, exclude, i) + (if draws[i] in exclude then {} else {draws[i]})
  {
  }

  /** Eligible draws in range are cells of the board outside the exclusion set. */
  lemma EligibleOnBoard(draws: seq<Pos>, exclude: set<Pos>, rows: nat, columns: nat, n: nat)
    requires DrawsInRange(draws, rows, columns)
    ensures Eligible(draws, exclude, n) <= Cells(rows, columns) - exclude
  {
    forall q | q in Eligible(draws, exclude, n) ensures q in Cells(rows, columns) {
      var k :| 0 <= k < n && k < |draws| && draws[k] == q;
      assert InRange(draws[k], rows, columns);
    }
  }

  /** The sampling loop of installBombs. The random picks are the sequence
      draws; the loop consumes them in order and needs enough eligible ones. */
  method SampleBombs(rows: nat, columns: nat, exclude: set<Pos>, totalBombs: nat, draws: seq<Pos>)
    returns (bombPositions: set<Pos>)
    requires DrawsInRange(draws, rows, columns)
    requires totalBombs <= |Eligible(draws, exclude, |draws|)|
    ensures |bombPositions| == totalBombs
    ensures bombPositions !! exclude
    ensures bombPositions <= Cells(rows, columns)
    ensures SampledFrom(bombPositions, draws, exclude, totalBombs)
  {
    bombPositions := {};
    var i := 0;
    while |bombPositions| < totalBombs
      invariant 0 <= i <= |draws|
      invariant bombPositions == Eligible(draws, exclude, i)
      invariant |bombPositions| <= totalBombs
      invariant forall m :: 0 <= m < i ==> |Eligible(draws, exclude, m)| < totalBombs
      decreases |draws| - i
    {
      var position := draws[i];
      EligibleStep(draws, exclude, i);
      i := i + 1;
      if position !in exclude {
        bombPositions := bombPositions + {position};
      }
    }
    EligibleOnBoard(draws, exclude, rows, columns, i);
  }

  /** The map of installBombs: isBomb from bombPositions, all else kept. */
  function PlaceBombs(board: Grid, bombPositions: set<Pos>): (r: Grid)
    ensures |r| == |board|
    ensures forall i :: 0 <= i < |board| ==> |r[i]| == |board[i]|
    ensures forall i, j {:trigger r[i][j]} :: 0 <= i < |board| && 0 <= j < |board[i]| ==>
      r[i][j] == board[i][j].(isBomb := (i, j) in bombPositions)
  {
    seq(|board|, i requires 0 <= i < |board| =>
      seq(|board[i]|, j requires 0 <= j < |board[i]| =>
        board[i][j].(isBomb := (i, j) in bombPositions)))
  }

  /** After placing a set of on-board positions, those are exactly the bombs. */
  lemma PlacedBombs(board: Grid, rows: nat, columns: nat, bombPositions: set<Pos>)
    requires IsGrid(board, rows, columns) && bombPositions <= Cells(rows, columns)
    ensures BombSet(PlaceBombs(board, bombPositions)) == bombPositions
  {
    var placed := PlaceBombs(board, bombPositions);
    forall q | q in bombPositions ensures q in BombSet(placed) {
      assert q in Cells(rows, columns);
      assert placed[q.0][q.1].isBomb;
    }
  }

  /** Boards of the same shape with the same isBomb fields have the same bombs. */
  lemma SameBombsSameSet(a: Grid, b: Grid)
    requires |a| == |b| && forall i :: 0 <= i < |a| ==> |a[i]| == |b[i]|
    requires forall i, j :: 0 <= i < |a| && 0 <= j < |a[i]| ==> a[i][j].isBomb == b[i][j].isBomb
    ensures BombSet(a) == BombSet(b)
  {
  }

  /** No in-range neighbour of the trigger, by the table offsets, is in a set
      disjoint from the exclusion set. */
  lemma NeighboursExcluded(y: int, x: int, rows: nat, columns: nat, offsets: Offsets, bombs: set<Pos>,
                           b: Grid)
    requires bombs !! Excluded(y, x, rows, columns, offsets)
    requires IsGrid(b, rows, columns) && BombSet(b) == bombs
    ensures forall k :: 0 <= k < |offsets| ==> !BombAt(b, Shift((y, x), offsets[k]))
    ensures InRange((y, x), rows, columns) ==> !b[y][x].isBomb
  {
    forall k | 0 <= k < |offsets| ensures !BombAt(b, Shift((y, x), offsets[k])) {
      var q := Shift((y, x), offsets[k]);
      if InRange(q, rows, columns) {
        assert q in ExcludedBelow(y, x, rows, columns, offsets, |offsets|);
        assert q !in BombSet(b);
      }
    }
    assert (y, x) !in BombSet(b);
  }

  /** installBombs: exclude the trigger (y, x) and its neighbours by the table
      of the parity of y, the trigger's row; sample totalBombs positions from
      draws; set isBomb from them; recount. */
  method InstallBombs(board: Grid, rows: nat, columns: nat, y: int, x: int,
                      totalBombs: nat, draws: seq<Pos>) returns (newBoard: Grid)
    requires IsGrid(board, rows, columns)
    requires DrawsInRange(draws, rows, columns)
    requires totalBombs <= |Eligible(draws, Excluded(y, x, rows, columns, OffsetsFor(y)), |draws|)|
    ensures IsGrid(newBoard, rows, columns)
    ensures forall r, c :: 0 <= r < rows && 0 <= c < columns ==>
      newBoard[r][c].row == board[r][c].row && newBoard[r][c].col == board[r][c].col &&
      newBoard[r][c].isFlag == board[r][c].isFlag &&
      newBoard[r][c].isRevealed == board[r][c].isRevealed
    ensures |BombSet(newBoard)| == totalBombs
    ensures BombSet(newBoard) !! Excluded(y, x, rows, columns, OffsetsFor(y))
    ensures InRange((y, x), rows, columns) ==> !newBoard[y][x].isBomb
    ensures forall k :: 0 <= k < |OffsetsFor(y)| ==> !BombAt(newBoard, Shift((y, x), OffsetsFor(y)[k]))
    ensures SampledFrom(BombSet(newBoard), draws, Excluded(y, x, rows, columns, OffsetsFor(y)), totalBombs)
    ensures Counted(newBoard)
  {
    var excludePositions := CollectExcluded(y, x, rows, columns, OffsetsFor(y));
    var bombPositions := SampleBombs(rows, columns, excludePositions, totalBombs, draws);
    var withBombs := PlaceBombs(board, bombPositions);
    newBoard := CountBombs(withBombs);
    PlacedBombs(board, rows, columns, bombPositions);
    SameBombsSameSet(withBombs, newBoard);
    NeighboursExcluded(y, x, rows, columns, OffsetsFor(y), bombPositions, newBoard);
  }

  // --- When the sampling loop can finish ------------------------------------

  /** The positions (r, 0) .. (r, n - 1) in order. */
  function RowSeq(r: int, n: nat): (s: seq<Pos>)
    ensures forall q :: q in s <==> q.0 == r && 0 <= q.1 < n
  {
    var s := seq(n, j => (r, j));
    assert forall q: Pos :: q.0 == r && 0 <= q.1 < n ==> s[q.1] == q;
    s
  }

  /** Every position of a rows x columns board, row by row. */
  function {:induction false} Enumerate(rows: nat, columns: nat): (s: seq<Pos>)
    ensures forall q :: q in s <==> InRange(q, rows, columns)
  {
    if rows == 0 then [] else Enumerate(rows - 1, columns) + RowSeq(rows - 1, columns)
  }

  /** However many draws there are, the eligible ones are at most the board's
      positions outside the exclusion set. */
  lemma EligibleAtMost(draws: seq<Pos>, rows: nat, columns: nat, exclude: set<Pos>)
    requires DrawsInRange(draws, rows, columns)
    ensures |Eligible(draws, exclude, |draws|)| <= rows * columns - |exclude * Cells(rows, columns)|
  {
    var all := Cells(rows, columns);
    CellsSize(rows, columns);
    assert all == (all - exclude) + (all * exclude);
    EligibleOnBoard(draws, exclude, rows, columns, |draws|);
    SubsetSize(Eligible(draws, exclude, |draws|), all - exclude);
  }

  /** Drawing every position once makes every non-excluded position eligible. */
  lemma EnumerateEligible(rows: nat, columns: nat, exclude: set<Pos>)
    ensures var draws := Enumerate(rows, columns);
      DrawsInRange(draws, rows, columns) &&
      |Eligible(draws, exclude, |draws|)| == rows * columns - |exclude * Cells(rows, columns)|
  {
    var all := Cells(rows, columns);
    var draws := Enumerate(rows, columns);
    CellsSize(rows, columns);
    assert all == (all - exclude) + (all * exclude);
    forall q | q in all - exclude ensures q in Eligible(draws, exclude, |draws|) {
      assert q in draws;
      var k :| 0 <= k < |draws| && draws[k] == q;
    }
    EligibleOnBoard(draws, exclude, rows, columns, |draws|) by {
      forall k | 0 <= k < |draws| ensures InRange(draws[k], rows, columns) {
        assert draws[k] in draws;
      }
    }
    assert Eligible(draws, exclude, |draws|) == all - exclude;
  }

  /** Sampling in range can collect total eligible positions exactly when the
      board has at least total positions outside the exclusion set. */
  lemma RoomForBombs(rows: nat, columns: nat, exclude: set<Pos>, total: nat)
    ensures (exists draws :: DrawsInRange(draws, rows, columns) && total <= |Eligible(draws, exclude, |draws|)|)
        <==> total <= rows * columns - |exclude * Cells(rows, columns)|
  {
    forall draws | DrawsInRange(draws, rows, columns)
      ensures |Eligible(draws, exclude, |draws|)| <= rows * columns - |exclude * Cells(rows, columns)|
    {
      EligibleAtMost(draws, rows, columns, exclude);
    }
    EnumerateEligible(rows, columns, exclude);
  }

  /** For a trigger on the board the exclusion set lies on the board, so the
      loop can finish exactly when totalBombs <= rows * columns - |exclude|. */
  lemma RoomAroundTrigger(rows: nat, columns: nat, y: int, x: int, total: nat)
    requires InRange((y, x), rows, columns)
    ensures (exists draws :: DrawsInRange(draws, rows, columns) &&
               total <= |Eligible(draws, Excluded(y, x, rows, columns, OffsetsFor(y)), |draws|)|)
        <==> total <= rows * columns - |Excluded(y, x, rows, columns, OffsetsFor(y))|
  {
    var exclude := Excluded(y, x, rows, columns, OffsetsFor(y));
    assert exclude * Cells(rows, columns) == exclude;
    RoomForBombs(rows, columns, exclude, total);
  }

  // --- handleRestart ---------------------------------------------------------

  /** handleRestart: a fresh blank board and the Playing state. A board with a
      cell is not cleared; an empty one counts as cleared at once. */
  method HandleRestart(rows: nat, columns: nat) returns (board: Grid, gameState: GameState)
    ensures IsBlank(board, rows, columns)
    ensures gameState == Playing
    ensures Board.IsAllRevealed(board) <==> rows == 0 || columns == 0
  {
    board := CreateBoard(rows, columns);
    gameState := Playing;
    if rows > 0 && columns > 0 {
      assert !board[0][0].isRevealed && !board[0][0].isBomb;
    }
  }
}
