/** The interaction part of the board: the flood-fill reveal, the left click
    (reveal), the right click (flag toggle) and the all-revealed test.
    Each handler is a step from the previous board to the next one; the React
    state updates around them are not modelled. */
module Board {
  import opened Hex

  // --- What an interaction step may change ---------------------------------

  /** A cell is unchanged, or it was unflagged and not a bomb and is now
      revealed (which is no change when it was revealed already). */
  predicate RevealStep(before: Cell, after: Cell) {
    after == before || (!before.isFlag && !before.isBomb && after == before.(isRevealed := true))
  }

  /** Same dimensions, and every cell changes by at most a RevealStep: only
      isRevealed moves, only from false to true, never on a flag or a bomb. */
  ghost predicate OnlyReveals(before: Grid, after: Grid) {
    |after| == |before| &&
    forall i :: 0 <= i < |before| ==>
      |after[i]| == |before[i]| &&
      forall j :: 0 <= j < |before[i]| ==> RevealStep(before[i][j], after[i][j])
  }

  /** The flood never enters this cell: it is revealed, flagged or a bomb. */
  predicate Settled(b: Grid, p: Pos) {
    InGrid(b, p) && (b[p.0][p.1].isRevealed || b[p.0][p.1].isFlag || b[p.0][p.1].isBomb)
  }

  /** q was hidden in before and is revealed in after. */
  predicate Newly(before: Grid, after: Grid, q: Pos) {
    InGrid(before, q) && InGrid(after, q) &&
    !before[q.0][q.1].isRevealed && after[q.0][q.1].isRevealed
  }

  /** The cell at p has no bomb neighbours, so the flood continues from it. */
  predicate Zero(b: Grid, p: Pos) {
    InGrid(b, p) && b[p.0][p.1].value == 0
  }

  /** q is reached from p by one entry of the offset table. */
  ghost predicate Adjacent(offsets: Offsets, p: Pos, q: Pos) {
    exists k :: 0 <= k < |offsets| && Shift(p, offsets[k]) == q
  }

  /** Hidden cells; the flood's termination measure. */
  ghost function Hidden(b: Grid): set<Pos> {
    set i, j | 0 <= i < |b| && 0 <= j < |b[i]| && !b[i][j].isRevealed :: (i, j)
  }

  /** The first n in-bounds neighbours of p (by the table offsets) are settled. */
  ghost predicate NeighboursSettled(prev: Grid, b: Grid, offsets: Offsets, p: Pos, n: nat) {
    forall k :: 0 <= k < n && k < |offsets| && Within(prev, Shift(p, offsets[k])) ==>
      Settled(b, Shift(p, offsets[k]))
  }

  /** Every zero-value cell the flood revealed, except those in pending, has all
      its in-bounds neighbours settled. */
  ghost predicate Closed(prev: Grid, b: Grid, offsets: Offsets, pending: set<Pos>) {
    forall p :: Newly(prev, b, p) && Zero(b, p) && p !in pending ==>
      NeighboursSettled(prev, b, offsets, p, |offsets|)
  }

  /** q is the start, or it is a neighbour of a zero-value cell revealed earlier. */
  ghost predicate Justified(b: Grid, rank: map<Pos, nat>, start: Pos, offsets: Offsets, q: Pos)
    requires q in rank
  {
    q == start ||
    exists p :: p in rank && rank[p] < rank[q] && Zero(b, p) && Adjacent(offsets, p, q)
  }

  /** rank numbers exactly the cells revealed since prev, in an order in which
      every one of them is justified by an earlier one. */
  ghost predicate Ranked(prev: Grid, b: Grid, rank: map<Pos, nat>, start: Pos, offsets: Offsets) {
    (forall q :: q in rank <==> Newly(prev, b, q)) &&
    (forall q :: q in rank ==> Justified(b, rank, start, offsets, q))
  }

  /** next is a completed flood of prev from start: only reveals, the start is
      settled, every revealed zero cell has its neighbours settled, and every
      revealed cell is reached from the start through revealed zero cells. */
  ghost predicate IsFlood(prev: Grid, next: Grid, start: Pos, offsets: Offsets, rank: map<Pos, nat>) {
    Rectangular(prev) && Within(prev, start) &&
    OnlyReveals(prev, next) &&
    Settled(next, start) &&
    Closed(prev, next, offsets, {}) &&
    Ranked(prev, next, rank, start, offsets)
  }

  ghost predicate FloodOf(prev: Grid, next: Grid, start: Pos, offsets: Offsets) {
    exists rank :: IsFlood(prev, next, start, offsets, rank)
  }

  // --- Facts about steps -----------------------------------------------------

  lemma OnlyRevealsTrans(a: Grid, b: Grid, c: Grid)
    requires OnlyReveals(a, b) && OnlyReveals(b, c)
    ensures OnlyReveals(a, c)
  {
  }

  /** A step keeps settled cells settled, keeps every value, and keeps
      everything revealed since an earlier board revealed. */
  lemma StepKeeps(prev: Grid, a: Grid, b: Grid)
    requires OnlyReveals(a, b)
    ensures forall q :: Settled(a, q) ==> Settled(b, q)
    ensures forall q :: Zero(a, q) <==> Zero(b, q)
    ensures forall q :: Newly(prev, a, q) ==> Newly(prev, b, q)
  {
  }

  lemma HiddenShrinks(a: Grid, b: Grid)
    requires OnlyReveals(a, b)
    ensures Hidden(b) <= Hidden(a)
  {
  }

  /** b' is b with the cell at p revealed and nothing else changed. */
  ghost predicate RevealedAt(b: Grid, b': Grid, p: Pos) {
    InGrid(b, p) &&
    |b'| == |b| &&
    (forall i :: 0 <= i < |b| ==> |b'[i]| == |b[i]|) &&
    b'[p.0][p.1] == b[p.0][p.1].(isRevealed := true) &&
    forall q :: InGrid(b, q) && q != p ==> b'[q.0][q.1] == b[q.0][q.1]
  }

  lemma RevealedAtUpdate(b: Grid, p: Pos)
    requires InGrid(b, p)
    ensures RevealedAt(b, b[p.0 := b[p.0][p.1 := b[p.0][p.1].(isRevealed := true)]], p)
  {
  }

  lemma RevealedAtStep(b: Grid, b': Grid, p: Pos)
    requires RevealedAt(b, b', p) && !Settled(b, p)
    ensures OnlyReveals(b, b')
    ensures p in Hidden(b) && p !in Hidden(b')
  {
    forall i, j | 0 <= i < |b| && 0 <= j < |b[i]| ensures RevealStep(b[i][j], b'[i][j]) {
      if (i, j) != p {
        assert b'[i][j] == b[i][j];
      }
    }
  }

  /** After revealing p, the cells revealed since prev are the old ones and p. */
  lemma RevealNewly(prev: Grid, b: Grid, b': Grid, p: Pos)
    requires OnlyReveals(prev, b) && RevealedAt(b, b', p) && !Settled(b, p)
    ensures forall q :: Newly(prev, b', q) <==> Newly(prev, b, q) || q == p
  {
    forall q ensures Newly(prev, b', q) <==> Newly(prev, b, q) || q == p {
      if q != p && InGrid(b, q) {
        assert b'[q.0][q.1] == b[q.0][q.1];
      }
    }
  }

  /** Numbering the newly revealed cell p last keeps the cell q justified. */
  lemma RevealJustifiedAt(b: Grid, b': Grid, rank: map<Pos, nat>, rank': map<Pos, nat>, clock: nat,
                          start: Pos, offsets: Offsets, p: Pos, q: Pos)
    requires rank' == rank[p := clock] && p !in rank
    requires forall w :: w in rank ==> rank[w] < clock
    requires forall w :: Zero(b, w) ==> Zero(b', w)
    requires q in rank ==> Justified(b, rank, start, offsets, q)
    requires p == start || exists w :: w in rank && Zero(b, w) && Adjacent(offsets, w, p)
    requires q in rank'
    ensures Justified(b', rank', start, offsets, q)
  {
    if q == start {
    } else if q == p {
      var w :| w in rank && Zero(b, w) && Adjacent(offsets, w, p);
      assert w in rank' && rank'[w] < rank'[q] && Zero(b', w);
    } else {
      var w :| w in rank && rank[w] < rank[q] && Zero(b, w) && Adjacent(offsets, w, q);
      assert w in rank' && rank'[w] < rank'[q] && Zero(b', w);
    }
  }

  lemma RevealJustified(b: Grid, b': Grid, rank: map<Pos, nat>, rank': map<Pos, nat>, clock: nat,
                        start: Pos, offsets: Offsets, p: Pos)
    requires rank' == rank[p := clock] && p !in rank
    requires forall q :: q in rank ==> Justified(b, rank, start, offsets, q)
    requires forall q :: q in rank ==> rank[q] < clock
    requires forall q :: Zero(b, q) ==> Zero(b', q)
    requires p == start || exists w :: w in rank && Zero(b, w) && Adjacent(offsets, w, p)
    ensures forall q :: q in rank' ==> Justified(b', rank', start, offsets, q)
  {
    forall q | q in rank' ensures Justified(b', rank', start, offsets, q) {
      RevealJustifiedAt(b, b', rank, rank', clock, start, offsets, p, q);
    }
  }

  lemma RevealRanked(prev: Grid, b: Grid, b': Grid, rank: map<Pos, nat>, clock: nat,
                     start: Pos, offsets: Offsets, p: Pos)
    requires OnlyReveals(prev, b) && Ranked(prev, b, rank, start, offsets)
    requires forall q :: q in rank ==> rank[q] < clock
    requires RevealedAt(b, b', p) && !Settled(b, p)
    requires p == start || exists w :: w in rank && Zero(b, w) && Adjacent(offsets, w, p)
    ensures Ranked(prev, b', rank[p := clock], start, offsets)
  {
    RevealedAtStep(b, b', p);
    StepKeeps(prev, b, b');
    RevealNewly(prev, b, b', p);
    RevealJustified(b, b', rank, rank[p := clock], clock, start, offsets, p);
  }

  /** Revealing p leaves every other revealed zero cell closed. */
  lemma RevealClosed(prev: Grid, b: Grid, b': Grid, offsets: Offsets, pending: set<Pos>, p: Pos)
    requires Closed(prev, b, offsets, pending)
    requires RevealedAt(b, b', p) && !Settled(b, p)
    ensures Closed(prev, b', offsets, pending + {p})
  {
    RevealedAtStep(b, b', p);
    StepKeeps(prev, b, b');
    forall q | Newly(prev, b', q) && Zero(b', q) && q !in pending + {p}
      ensures Newly(prev, b, q)
    {
      assert b'[q.0][q.1] == b[q.0][q.1];
    }
  }

  /** The invariant of a flood in progress from start over prev. */
  ghost predicate FloodInv(prev: Grid, b: Grid, rank: map<Pos, nat>, clock: nat, start: Pos, offsets: Offsets) {
    Rectangular(prev) && Within(prev, start) &&
    OnlyReveals(prev, b) &&
    Ranked(prev, b, rank, start, offsets) &&
    (forall q :: q in rank ==> rank[q] < clock)
  }

  /** Revealing the hidden cell p keeps the invariant, numbers p last and
      leaves p pending. */
  lemma RevealKeeps(prev: Grid, b: Grid, b': Grid, p: Pos, rank: map<Pos, nat>, clock: nat,
                    start: Pos, offsets: Offsets, pending: set<Pos>)
    requires FloodInv(prev, b, rank, clock, start, offsets)
    requires Closed(prev, b, offsets, pending)
    requires InGrid(b, p) && !Settled(b, p)
    requires b' == b[p.0 := b[p.0][p.1 := b[p.0][p.1].(isRevealed := true)]]
    requires p == start || exists w :: w in rank && Zero(b, w) && Adjacent(offsets, w, p)
    ensures FloodInv(prev, b', rank[p := clock], clock + 1, start, offsets)
    ensures OnlyReveals(b, b') && Newly(prev, b', p)
    ensures Closed(prev, b', offsets, pending + {p})
    ensures Hidden(b') < Hidden(b)
  {
    RevealedAtUpdate(b, p);
    RevealedAtStep(b, b', p);
    OnlyRevealsTrans(prev, b, b');
    RevealRanked(prev, b, b', rank, clock, start, offsets, p);
    RevealClosed(prev, b, b', offsets, pending, p);
    HiddenShrinks(b, b');
  }

  /** After the recursive call on the i-th neighbour of the expanding cell p. */
  lemma NeighbourDone(prev: Grid, b0: Grid, b1: Grid, b2: Grid, offsets: Offsets, p: Pos, i: nat)
    requires OnlyReveals(b0, b1) && OnlyReveals(b1, b2)
    requires Newly(prev, b1, p) && Zero(b1, p)
    requires NeighboursSettled(prev, b1, offsets, p, i)
    requires i < |offsets|
    requires Within(prev, Shift(p, offsets[i])) ==> Settled(b2, Shift(p, offsets[i]))
    ensures OnlyReveals(b0, b2) && Newly(prev, b2, p) && Zero(b2, p)
    ensures NeighboursSettled(prev, b2, offsets, p, i + 1)
    ensures Hidden(b2) <= Hidden(b1)
  {
    OnlyRevealsTrans(b0, b1, b2);
    StepKeeps(prev, b1, b2);
    HiddenShrinks(b1, b2);
  }

  /** An out-of-bounds neighbour needs nothing. */
  lemma NeighbourSkipped(prev: Grid, b: Grid, offsets: Offsets, p: Pos, i: nat)
    requires NeighboursSettled(prev, b, offsets, p, i)
    requires i < |offsets| && !Within(prev, Shift(p, offsets[i]))
    ensures NeighboursSettled(prev, b, offsets, p, i + 1)
  {
  }

  /** Boards of the same shape agree on the bounds check. */
  lemma WithinSameShape(prev: Grid, b: Grid, q: Pos)
    requires OnlyReveals(prev, b)
    ensures Within(b, q) <==> Within(prev, q)
  {
  }

  /** Once all neighbours of p are settled, p no longer needs to be pending. */
  lemma ExpandDone(prev: Grid, b: Grid, offsets: Offsets, pending: set<Pos>, p: Pos)
    requires Closed(prev, b, offsets, pending + {p})
    requires NeighboursSettled(prev, b, offsets, p, |offsets|)
    ensures Closed(prev, b, offsets, pending)
  {
  }

  /** A revealed cell with a nonzero value needs no expansion. */
  lemma NonzeroDone(prev: Grid, b: Grid, offsets: Offsets, pending: set<Pos>, p: Pos)
    requires Closed(prev, b, offsets, pending + {p})
    requires InGrid(b, p) && b[p.0][p.1].value != 0
    ensures Closed(prev, b, offsets, pending)
  {
  }

  // --- The depth-first flood ------------------------------------------------

  /** The flood of revealAdjacentCells. Its board is the copied array the inner
      dfs writes into; rank and clock are ghost bookkeeping of the reveal order. */
  class Flood {
    const prev: Grid
    const start: Pos
    /** Chosen once, from the start column, and used at every step. */
    const offsets: Offsets
    var board: Grid
    ghost var rank: map<Pos, nat>
    ghost var clock: nat

    ghost predicate Valid()
      reads this
    {
      FloodInv(prev, board, rank, clock, start, offsets)
    }

    constructor (prevBoard: Grid, row: int, col: int)
      requires Rectangular(prevBoard) && Within(prevBoard, (row, col))
      ensures Valid()
      ensures prev == prevBoard && start == (row, col) && offsets == OffsetsFor(col)
      ensures board == prevBoard && rank == map[]
    {
      prev := prevBoard;
      start := (row, col);
      offsets := OffsetsFor(col);
      board := prevBoard;
      rank := map[];
      clock := 0;
    }

    /** Reveal p unless it is settled; when its value is 0, recurse into each
        in-bounds neighbour. pending holds the cells whose neighbour loop is
        still running further up the recursion. */
    method Dfs(p: Pos, ghost pending: set<Pos>)
      requires Valid() && Within(prev, p)
      requires Closed(prev, board, offsets, pending)
      requires p == start || exists w :: w in rank && Zero(board, w) && Adjacent(offsets, w, p)
      modifies this
      ensures Valid()
      ensures OnlyReveals(old(board), board)
      ensures Closed(prev, board, offsets, pending)
      ensures Settled(board, p)
      decreases Hidden(board)
    {
      var cell := board[p.0][p.1];
      if cell.isRevealed || cell.isFlag || cell.isBomb {
        return;
      }
      ghost var b0, rank0, clock0 := board, rank, clock;
      board := board[p.0 := board[p.0][p.1 := cell.(isRevealed := true)]];
      rank := rank[p := clock];
      clock := clock + 1;
      RevealKeeps(prev, b0, board, p, rank0, clock0, start, offsets, pending);
      if cell.value == 0 {
        for i := 0 to |offsets|
          invariant Valid()
          invariant OnlyReveals(old(board), board)
          invariant Newly(prev, board, p) && Zero(board, p)
          invariant Closed(prev, board, offsets, pending + {p})
          invariant NeighboursSettled(prev, board, offsets, p, i)
          invariant Hidden(board) < old(Hidden(board))
        {
          var next := Shift(p, offsets[i]);
          WithinSameShape(prev, board, next);
          if Within(board, next) {
            ghost var before := board;
            assert Adjacent(offsets, p, next);
            Dfs(next, pending + {p});
            NeighbourDone(prev, old(board), before, board, offsets, p, i);
          } else {
            NeighbourSkipped(prev, board, offsets, p, i);
          }
        }
        ExpandDone(prev, board, offsets, pending, p);
      } else {
        NonzeroDone(prev, board, offsets, pending, p);
      }
    }
  }

  /** revealAdjacentCells: flood from (row, col) with the table of column col. */
  method RevealAdjacentCells(row: int, col: int, prevBoard: Grid) returns (newBoard: Grid)
    requires Rectangular(prevBoard) && Within(prevBoard, (row, col))
    ensures OnlyReveals(prevBoard, newBoard)
    ensures Settled(newBoard, (row, col))
    ensures Closed(prevBoard, newBoard, OffsetsFor(col), {})
    ensures FloodOf(prevBoard, newBoard, (row, col), OffsetsFor(col))
  {
    var flood := new Flood(prevBoard, row, col);
    flood.Dfs((row, col), {});
    newBoard := flood.board;
    assert IsFlood(prevBoard, newBoard, (row, col), OffsetsFor(col), flood.rank);
  }

  // --- A completed flood is determined by the board and the start ----------

  /** A cell revealed by reveals alone was hidden, unflagged and not a bomb
      before; such a cell is settled afterwards only by being revealed. */
  lemma NewlyWasOpen(prev: Grid, n1: Grid, n2: Grid, q: Pos)
    requires OnlyReveals(prev, n1) && OnlyReveals(prev, n2)
    requires Newly(prev, n1, q) && Settled(n2, q)
    ensures Newly(prev, n2, q)
  {
    assert RevealStep(prev[q.0][q.1], n1[q.0][q.1]);
    assert RevealStep(prev[q.0][q.1], n2[q.0][q.1]);
  }

  /** The neighbour q of a cell p that a flood revealed with value 0 is settled
      in that flood. */
  lemma FloodNeighbourSettled(prev: Grid, n: Grid, start: Pos, offsets: Offsets,
                              rank: map<Pos, nat>, p: Pos, q: Pos)
    requires IsFlood(prev, n, start, offsets, rank)
    requires Newly(prev, n, p) && Zero(n, p) && Adjacent(offsets, p, q) && InGrid(prev, q)
    ensures Settled(n, q)
  {
    var k :| 0 <= k < |offsets| && Shift(p, offsets[k]) == q;
    assert NeighboursSettled(prev, n, offsets, p, |offsets|);
  }

  /** Every cell revealed by one flood is revealed by any other flood of the
      same board from the same start, by induction on the reveal order. */
  lemma {:induction false} FloodReaches(prev: Grid, n1: Grid, n2: Grid, start: Pos, offsets: Offsets,
                                        r1: map<Pos, nat>, r2: map<Pos, nat>, q: Pos)
    requires IsFlood(prev, n1, start, offsets, r1) && IsFlood(prev, n2, start, offsets, r2)
    requires Newly(prev, n1, q)
    ensures Newly(prev, n2, q)
    decreases if q in r1 then r1[q] else 0
  {
    assert q in r1;
    if q != start {
      assert Justified(n1, r1, start, offsets, q);
      var p :| p in r1 && r1[p] < r1[q] && Zero(n1, p) && Adjacent(offsets, p, q);
      FloodReaches(prev, n1, n2, start, offsets, r1, r2, p);
      StepKeeps(prev, prev, n1);
      StepKeeps(prev, prev, n2);
      FloodNeighbourSettled(prev, n2, start, offsets, r2, p, q);
    }
    NewlyWasOpen(prev, n1, n2, q);
  }

  /** Two boards reached from prev by reveals alone, revealing the same cells,
      are equal. */
  lemma SameRevealsSameBoard(prev: Grid, n1: Grid, n2: Grid)
    requires OnlyReveals(prev, n1) && OnlyReveals(prev, n2)
    requires forall q :: Newly(prev, n1, q) <==> Newly(prev, n2, q)
    ensures n1 == n2
  {
    forall i | 0 <= i < |prev| ensures n1[i] == n2[i] {
      forall j | 0 <= j < |prev[i]| ensures n1[i][j] == n2[i][j] {
        assert Newly(prev, n1, (i, j)) <==> Newly(prev, n2, (i, j));
      }
    }
  }

  /** The flood's result does not depend on the order of the traversal: any two
      completed floods of the same board from the same start are equal. */
  lemma FloodUnique(prev: Grid, n1: Grid, n2: Grid, start: Pos, offsets: Offsets)
    requires FloodOf(prev, n1, start, offsets) && FloodOf(prev, n2, start, offsets)
    ensures n1 == n2
  {
    var r1 :| IsFlood(prev, n1, start, offsets, r1);
    var r2 :| IsFlood(prev, n2, start, offsets, r2);
    forall q ensures Newly(prev, n1, q) <==> Newly(prev, n2, q) {
      if Newly(prev, n1, q) { FloodReaches(prev, n1, n2, start, offsets, r1, r2, q); }
      if Newly(prev, n2, q) { FloodReaches(prev, n2, n1, start, offsets, r2, r1, q); }
    }
    SameRevealsSameBoard(prev, n1, n2);
  }

  // --- The click handlers ----------------------------------------------------

  /** onLeftClick: a flagged or revealed cell is left alone; a bomb signals game
      over and changes nothing; a zero-value cell starts the flood; any other
      cell is revealed on its own. */
  method OnLeftClick(prevBoard: Grid, row: int, col: int) returns (newBoard: Grid, gameOver: bool)
    requires Rectangular(prevBoard) && Within(prevBoard, (row, col))
    ensures InGrid(prevBoard, (row, col))
    ensures var cell := prevBoard[row][col];
      gameOver <==> !cell.isFlag && !cell.isRevealed && cell.isBomb
    ensures var cell := prevBoard[row][col];
      cell.isFlag || cell.isRevealed || cell.isBomb ==> newBoard == prevBoard
    ensures var cell := prevBoard[row][col];
      !cell.isFlag && !cell.isRevealed && !cell.isBomb && cell.value != 0 ==>
        RevealedAt(prevBoard, newBoard, (row, col))
    ensures var cell := prevBoard[row][col];
      !cell.isFlag && !cell.isRevealed && !cell.isBomb && cell.value == 0 ==>
        FloodOf(prevBoard, newBoard, (row, col), OffsetsFor(col))
    ensures OnlyReveals(prevBoard, newBoard)
    ensures !gameOver ==> Settled(newBoard, (row, col))
  {
    var cell := prevBoard[row][col];
    if cell.isFlag || cell.isRevealed {
      return prevBoard, false;
    }
    newBoard := prevBoard;
    gameOver := false;
    if cell.isBomb {
      gameOver := true;
    } else if cell.value == 0 {
      newBoard := RevealAdjacentCells(row, col, prevBoard);
    } else {
      newBoard := newBoard[row := prevBoard[row][col := cell.(isRevealed := true)]];
      RevealedAtUpdate(prevBoard, (row, col));
      RevealedAtStep(prevBoard, newBoard, (row, col));
    }
  }

  /** onRightClick: toggle the flag of the cell at (row, col), revealed or not;
      every other cell, and every other field, stays as it was. */
  function OnRightClick(prevBoard: Grid, row: int, col: int): (newBoard: Grid)
    ensures |newBoard| == |prevBoard|
    ensures forall i :: 0 <= i < |prevBoard| ==> |newBoard[i]| == |prevBoard[i]|
    ensures forall i, j :: 0 <= i < |prevBoard| && 0 <= j < |prevBoard[i]| ==>
      newBoard[i][j].isFlag == (prevBoard[i][j].isFlag != (i == row && j == col)) &&
      newBoard[i][j].(isFlag := prevBoard[i][j].isFlag) == prevBoard[i][j]
  {
    seq(|prevBoard|, i requires 0 <= i < |prevBoard| =>
      seq(|prevBoard[i]|, j requires 0 <= j < |prevBoard[i]| =>
        if i == row && j == col then prevBoard[i][j].(isFlag := !prevBoard[i][j].isFlag)
        else prevBoard[i][j]))
  }

  /** Flagging twice restores the board. */
  lemma RightClickTwice(b: Grid, row: int, col: int)
    ensures OnRightClick(OnRightClick(b, row, col), row, col) == b
  {
    var b2 := OnRightClick(OnRightClick(b, row, col), row, col);
    forall i | 0 <= i < |b| ensures b2[i] == b[i] {
      assert |b2[i]| == |b[i]|;
      forall j | 0 <= j < |b[i]| ensures b2[i][j] == b[i][j] {
      }
    }
  }

  /** A click outside the board changes nothing. */
  lemma RightClickOutside(b: Grid, row: int, col: int)
    requires !InGrid(b, (row, col))
    ensures OnRightClick(b, row, col) == b
  {
    var b2 := OnRightClick(b, row, col);
    forall i | 0 <= i < |b| ensures b2[i] == b[i] {
      assert |b2[i]| == |b[i]|;
      forall j | 0 <= j < |b[i]| ensures b2[i][j] == b[i][j] {
      }
    }
  }

  // --- The win test ----------------------------------------------------------

  /** Every cell of the row is revealed or a bomb. */
  function RowRevealed(cells: seq<Cell>): (r: bool)
    ensures r <==> forall j :: 0 <= j < |cells| ==> cells[j].isRevealed || cells[j].isBomb
  {
    if |cells| == 0 then true
    else (cells[0].isRevealed || cells[0].isBomb) && RowRevealed(cells[1..])
  }

  /** The all-revealed test after each board change: game clear is signalled
      exactly when every cell is revealed or a bomb. */
  function IsAllRevealed(board: Grid): (r: bool)
    ensures r <==> forall i, j :: 0 <= i < |board| && 0 <= j < |board[i]| ==>
      board[i][j].isRevealed || board[i][j].isBomb
  {
    if |board| == 0 then true
    else RowRevealed(board[0]) && IsAllRevealed(board[1..])
  }
}
