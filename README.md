# Hexagonal minesweeper board engine in Dafny

This project models the board-state engine of a hexagonal minesweeper written
in TypeScript and React. The engine has two parts:

- The managing component (`src/components/ManageBoard.tsx`) builds a blank
  `rows × columns` board (`createBoard`). It places mines away from the first
  clicked cell (`installBombs`), counts each cell's neighbouring mines
  (`countBombs`) and resets the round (`handleRestart`).
- The board component (`src/components/Board.tsx`) handles a left click: no
  change, game over, a depth-first flood reveal (`revealAdjacentCells`), or the
  reveal of one cell. It also handles a right click, which toggles a flag, and
  the "every cell is revealed or a mine" win test.

Three modules follow that structure:

- `Hex` (hex.dfy) holds the shared data model.
  - The `Cell` record, without its pixel coordinates.
  - The board as `seq<seq<Cell>>`, and positions as pairs.
  - The two neighbour-offset tables and the parity test that picks one.
  - The bounds checks.
- `ManageBoard` (manage_board.dfy) holds the four operations of the managing
  component. Each loop of the source is a method with a `while` or `for` loop,
  proved against a ghost specification:
  - `CreateBoard` and `HandleRestart` against the predicate `IsBlank`;
  - `CountAround`, `CountRow` and `CountBombs` against the function
    `BombsAround` and the predicate `Counted`;
  - `CollectExcluded` against the function `Excluded`;
  - `SampleBombs` and `InstallBombs` against the function `Eligible` and the
    predicate `SampledFrom`.
- `Board` (board.dfy) holds the click handlers and the win test. The recursive
  `dfs` of `revealAdjacentCells` writes into a copied board. Here it is the
  class `Flood`, whose field `board` the method `Dfs` updates cell by cell. A
  ghost map `rank` records the order in which cells were revealed.
  - The flood is specified by the predicate `IsFlood`. It says the flood:
    - only reveals cells;
    - never reveals a flag or a mine;
    - leaves the start settled;
    - leaves every in-bounds neighbour of every zero-valued cell it revealed
      settled;
    - reveals only cells reached from the start through revealed zero cells.
  - `FloodUnique` shows that this pins down the resulting board. The result
    therefore does not depend on the order of the traversal.

Each handler is modelled as a step from the previous board to the next. The
React state update that wraps it is not modelled. `Math.random` is an oracle:
`installBombs` receives the sequence `draws` of positions the random picks
would produce.

Where the code and the natural description of the game differ, the model
follows the code:

- A left click outside the board faults in the code, because it reads
  `prevBoard[row][col]` unguarded. So `OnLeftClick` requires an in-bounds
  click and does not treat it as a no-op. A right click outside the board does
  change nothing (`RightClickOutside`).
- The sampling loop has no clamp on the mine count. Its termination is the
  precondition that enough eligible draws exist. `RoomForBombs` and
  `RoomAroundTrigger` show that this precondition can be met exactly when
  `totalBombs <= rows * columns - |excluded|`.
- The win test has no guard for a board without cells. `HandleRestart` states
  that a fresh board counts as all revealed exactly when it has no cell.
- `installBombs` picks its offset table by the parity of the trigger's row `y`.
  `countBombs` picks by each cell's column. The flood picks once, by the
  starting column, and uses that table at every step. The model keeps all
  three choices.

## Model

| member | source | states |
|---|---|---|
| `Hex.OffsetsFor` | src/components/Board.tsx:19 | The table is the even one exactly when `n % 2 === 0` under JavaScript's truncating `%` (stated through `JsRem`), and the odd one otherwise, for negative `n` too. The same choice appears at src/components/ManageBoard.tsx:38 and :98. |
| `Hex.Within` | src/components/Board.tsx:37 | The code's bounds check against `board.length` and `board[0].length`, also used at src/components/ManageBoard.tsx:44. On a rectangular board it holds exactly when the indexed cell exists. |
| `Hex.InRange` | src/components/ManageBoard.tsx:107 | The bounds check against `rows` and `columns` holds exactly on the positions of a `rows × columns` board. |
| `Hex.CellsSize` | src/components/ManageBoard.tsx:91 | A `rows × columns` board has exactly `rows * columns` positions. |
| `ManageBoard.CreateBoard` | src/components/ManageBoard.tsx:59-80 | Returns exactly `rows` rows of `columns` cells, so the board is rectangular, as the counting and click handlers require. The cell at `[r][c]` has row `r` and column `c`, no flag, no mine, is unrevealed and has value 0. |
| `ManageBoard.BombHitsBound` | src/components/ManageBoard.tsx:39-48 | After looking at the first `n` offsets, at most `n` bomb neighbours have been found. |
| `ManageBoard.BombsAroundBound` | src/components/ManageBoard.tsx:36-49 | A cell's mine count lies between 0 and the length of its offset table. |
| `ManageBoard.SameBombsSameCount` | src/components/ManageBoard.tsx:44-45 | The count depends only on the board's shape and its `isBomb` fields. |
| `ManageBoard.CountAround` | src/components/ManageBoard.tsx:36-49 | The loop's `count` equals the number of offsets in the table that land, in bounds, on a mine. |
| `ManageBoard.CountRow` | src/components/ManageBoard.tsx:35-54 | Each cell of the row becomes the input cell with `value` replaced by its count, using the table of its column's parity. |
| `ManageBoard.CountBombs` | src/components/ManageBoard.tsx:33-57 | Keeps the dimensions and every field except `value`. Each `value` is the count of mine neighbours in the input board, and the result is `Counted`: its values agree with its own mines. |
| `ManageBoard.RecountedIsCounted` | src/components/ManageBoard.tsx:50-53 | Because recounting keeps every mine, the recounted board's values match its own mine neighbours. |
| `ManageBoard.CountedBound` | src/components/ManageBoard.tsx:36-49 | After countBombs, every value is between 0 and the table length. |
| `ManageBoard.CollectExcluded` | src/components/ManageBoard.tsx:96-110 | The exclusion set is the trigger plus every in-range target of the offsets, using the table from the row's parity. |
| `ManageBoard.SampleBombs` | src/components/ManageBoard.tsx:112-122 | On exit, exactly `totalBombs` distinct positions are chosen. All are on the board and none is excluded. They are the eligible draws up to the first draw that reaches the count. |
| `ManageBoard.PlaceBombs` | src/components/ManageBoard.tsx:124-133 | Keeps the shape. Each cell's `isBomb` becomes membership of its position in the set, and every other field is kept. |
| `ManageBoard.PlacedBombs` | src/components/ManageBoard.tsx:124-133 | After placing a set of on-board positions, the board's mines are exactly that set. |
| `ManageBoard.NeighboursExcluded` | src/components/ManageBoard.tsx:97-122 | With mines kept out of the exclusion set, the trigger is not a mine. Neither is any in-bounds cell one offset away from it. |
| `ManageBoard.InstallBombs` | src/components/ManageBoard.tsx:89-137 | Keeps the dimensions and `row`, `col`, `isFlag` and `isRevealed` of every cell. Exactly `totalBombs` mines are placed, none on the trigger or its row-parity neighbours, sampled from the draws. Every value is recounted. |
| `ManageBoard.EligibleAtMost` | src/components/ManageBoard.tsx:113-122 | However many in-range draws there are, at most `rows * columns` minus the number of excluded positions on the board are distinct and eligible. |
| `ManageBoard.EnumerateEligible` | src/components/ManageBoard.tsx:113-122 | Drawing every position once makes all the non-excluded positions eligible. |
| `ManageBoard.RoomForBombs` | src/components/ManageBoard.tsx:113-122 | Some sequence of in-range draws lets the sampling loop finish exactly when `totalBombs` is at most `rows * columns` minus the number of excluded positions on the board. |
| `ManageBoard.RoomAroundTrigger` | src/components/ManageBoard.tsx:101-122 | For a trigger on the board, the loop can finish exactly when `totalBombs` is at most `rows * columns` minus the size of `excludePositions`. |
| `ManageBoard.HandleRestart` | src/components/ManageBoard.tsx:84-87 | The board becomes a fresh blank board and the state `Playing`. The fresh board passes the win test exactly when it has no cell. |
| `Board.Flood.constructor` | src/components/Board.tsx:18-20 | The flood starts from a copy of the previous board, with the offset table of the starting column. |
| `Board.RevealKeeps` | src/components/Board.tsx:23-28 | Revealing a hidden, unflagged, non-mine cell keeps the flood invariant. It changes only that cell and strictly shrinks the set of hidden cells. |
| `Board.Flood.Dfs` | src/components/Board.tsx:22-42 | The cell ends settled, and the call only reveals unflagged non-mine cells. Every zero cell it revealed has its in-bounds neighbours settled. It terminates because the set of hidden cells strictly shrinks. |
| `Board.RevealAdjacentCells` | src/components/Board.tsx:18-46 | The result only reveals cells and settles the start. Every revealed zero cell has all its in-bounds neighbours settled, by the start column's table. The result is a flood in the sense of `IsFlood`. |
| `Board.FloodReaches` | src/components/Board.tsx:22-44 | A cell revealed by one completed flood is revealed by every completed flood from the same start. The proof is by induction on the reveal order. |
| `Board.FloodUnique` | src/components/Board.tsx:18-46 | Any two completed floods of a board from the same start give the same board. |
| `Board.OnLeftClick` | src/components/Board.tsx:49-71 | Game over is signalled exactly on an unflagged, unrevealed mine. A flagged, revealed or mined cell leaves the board unchanged. A nonzero safe cell is revealed alone. A zero safe cell starts the flood. Only reveals happen, and the clicked cell ends settled unless the game is over. |
| `Board.OnRightClick` | src/components/Board.tsx:74-86 | Keeps the shape and flips `isFlag` of exactly the target cell, even a revealed one. Every other field and cell is kept. |
| `Board.RightClickTwice` | src/components/Board.tsx:76-84 | Toggling the same cell twice restores the board. |
| `Board.RightClickOutside` | src/components/Board.tsx:78 | A right click outside the board changes nothing. |
| `Board.RowRevealed` | src/components/Board.tsx:90 | True exactly when every cell of the row is revealed or a mine. |
| `Board.IsAllRevealed` | src/components/Board.tsx:88-94 | Game clear is signalled exactly when every cell of the board is revealed or a mine. |

## Left out

- Pixel geometry is not modelled. The `x` and `y` fields, the hexagon width and height, and the SVG size are computed with `Math.sqrt(3)` and floating point, and no operation reads them.
- `Math.floor(totalCells * 0.15)` is not computed, because it is floating point. `totalBombs` is a parameter of `InstallBombs`.
- `Math.random` is not modelled. It becomes the parameter `draws`, the positions the random picks produce, in order.
- SampleBombs: the loop's termination rests on the requirement that `draws` holds enough eligible positions, because with an endless random source the code has no bound. `RoomForBombs` says when that requirement can be met.
- React machinery is not modelled: `useState`, `useCallback`, `useEffect`, the updater functions passed to `setBoard`, the remount keyed on the serialised board, the JSX and SVG output and `HexCell`. The `onGameOver` and `onGameClear` callbacks become the `gameOver` result of `OnLeftClick` and the result of `IsAllRevealed`.
- Gating by the game state is not modelled, and neither is the first-click call to `installBombs`. `Board` neither declares nor uses the `installBombs` and `gameState` props that the managing component passes it.
- The contents of the offset tables are not taken from the source, whose constants file is not part of this model. The two tables are fixed constants. Some members take the table as an argument: `BombHits`, `BombsAround`, `CountAround`, `ExcludedBelow`, `Excluded` and `CollectExcluded` with the lemmas about them, and the flood predicates and lemmas from `Adjacent` to `FloodUnique`. The other members and contracts fix the table with `OffsetsFor`: `CountRow`, `CountBombs`, `InstallBombs`, `RevealAdjacentCells`, `OnLeftClick` and the `Flood` constructor; the predicates `RecountedCells`, `RecountedRows` and `Counted`; and the lemmas `RecountedCellsAppend`, `RecountedAppend`, `RecountedIsCounted`, `CountedBound` and `RoomAroundTrigger`. No proof depends on the tables' contents or lengths.
- `rows` and `columns` are natural numbers, so negative dimensions are not modelled.
- OnLeftClick: a click outside the board is excluded by a precondition, because the code faults on it.
- Mutation through shared row arrays is not modelled. The source copies a row before writing into it, so no other board sees the write, and the model's value sequences show the same behaviour.

