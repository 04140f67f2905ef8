# Game of Life board, modelled in Dafny

This project models the board object of a JavaScript implementation of
Conway's Game of Life (`game-of-life.js`). The board is one object. It
holds the dimensions `rows` and `columns`, the cell size, the current grid
`board[i][j]` and the scratch grid `nextState[i][j]`. Its operations are:

- `resize`: derives the dimensions from the canvas size and zero-fills both grids.
- `getNeighbourCount`: counts the live neighbours of a cell.
- `determineNextState`: writes the life rules into the scratch grid.
- `moveToNextState`: copies the scratch grid back.
- `update`: one step, the previous two in that order.
- `createGlider` and `createGliderGun`: stamp a preset pattern, behind a bounds check.
- `fillByClick`: makes one cell alive.

The project has three modules:

- `Life` (life.dfy) is the value-level model. A grid is a `seq<seq<int>>`.
  It defines the neighbour count exactly as written, the rules, one
  generation, and the lemmas about them.
- `Patterns` (patterns.dfy) holds the two patterns' offsets, the bounds
  check as written, the stricter check, and the stamped grid.
- `Board` (board.dfy) is the class `GameOfLife`, with `board` and
  `nextState` as `array2<int>` fields. Its methods keep the source's loops
  and writes, and each one is proved against the `Life`/`Patterns` functions.

The class keeps three nested invariants:

- `Shaped`: both arrays are `rows` x `columns` and distinct, and `cellSize > 0`.
- `Valid`: `Shaped`, and every cell of both grids is 0 or 1.
- `Settled`: `Valid`, and every cell dead in `board` is dead in `nextState`.

`Settled` is what holds between steps. Under it, the cells that
`determineNextState` never writes already hold 0, so a step is a function
of the current grid alone (`Life.Generation`).

Two behaviours of the code are modelled as written:

- **Edge columns.** The column guards of `getNeighbourCount` always hold
  inside the board. In column 0 and in column `columns - 1` the code
  therefore reads `undefined`, and the count is `NaN`. The model
  represents such values as `None`. Every comparison with `NaN` is false,
  so a live edge cell is rewritten as alive and a dead one is not written:
  cells in the first and last column never change. Conway's rule as usually
  stated gives a corner cell 3 neighbours and an edge cell 5. The code
  gives `NaN` in the edge columns, and the model follows the code; see Findings.
- **Stamp bounds.** The stamps' bounds checks are one short. They are
  modelled as written; see Findings.

## Model

| member | source | states |
|---|---|---|
| Life.Dimension | game-of-life.js:39-48 | The derived row (column) count is the maximum of `extent / cellSize` and the limit. When the canvas value wins, exactly that many whole cells fit in the extent. |
| Life.ReadRow | game-of-life.js:149 | Definition, with no contract, of JavaScript's read of a row: the cell inside the row, `undefined` (`None`) outside it. |
| Life.Plus | game-of-life.js:149 | Definition, with no contract, of JavaScript's `+` on counts: `undefined` or `NaN` on either side gives `NaN` (`None`). `Life.AddSidesEdge` and `Life.NeighbourCountUndefined` state what this does to the count. |
| Life.NeighbourCount | game-of-life.js:139-183 | Definition, with no contract, of getNeighbourCount as written: the own row's two side reads, then the row above when `row - 1 >= 0`, then the row below when `row + 1 < rows`, each side read behind its vacuous guard. `Life.NeighbourCountInterior`, `Life.NeighbourCountUndefined` and `Life.FullBoardCounts` characterise it. |
| Life.LiveNeighbours | game-of-life.js:131-137 | Reference definition, with no contract: the number of live cells among the on-board 8-neighbourhood, which is what the doc comment promises. `Life.LiveAmongBound` bounds it, and `Life.NeighbourCountInterior` ties the code's count to it. |
| Life.CountToAboveInterior | game-of-life.js:141-167 | Away from the edge columns, the count up to the row above is the number of live cells beside and above the cell. |
| Life.AddRowInterior | game-of-life.js:156-179 | Away from the edge columns, adding one neighbour row adds the live cells among its three cells. |
| Life.AddSidesInterior | game-of-life.js:147-153 | If a column has a neighbour column on both sides, both side reads of the count are numbers and are added. |
| Life.AddSidesEdge | game-of-life.js:147-153 | In the first and the last column, one side read is `undefined`, so the partial count becomes `NaN`. |
| Life.NeighbourCountInterior | game-of-life.js:139-183 | For `0 < column < columns - 1`, the count equals the reference count of live cells in the on-board 8-neighbourhood, and that is at most 8. The row above is skipped in row 0 and the row below in the last row. |
| Life.LiveAmongBound | game-of-life.js:139-183 | The reference count over a list of offsets never exceeds the number of offsets. |
| Life.NeighbourCountUndefined | game-of-life.js:147-178 | The count is `NaN` if and only if the column is the first or the last one. |
| Life.FullBoardCounts | game-of-life.js:139-183 | On an all-alive board the count is 8 inside, 5 for a top-row cell away from the edge columns, and `NaN` in the edge columns. |
| Life.NextCell | game-of-life.js:194-212 | The new value of a scratch slot is 0, 1, or the value it held before. |
| Life.Rule | game-of-life.js:195-211 | Definition, with no contract, of the write the rules make for one cell: rule 4, then rules 1 and 3, then rule 2, and no write otherwise. Comparisons with `NaN` are false. `Life.RuleTable` characterises it against `Life.Conway`. |
| Life.Conway | game-of-life.js:195-211 | Reference definition, with no contract, of Conway's rule: a live cell lives on with 2 or 3 neighbours, and a dead cell is born with exactly 3. |
| Life.RuleTable | game-of-life.js:195-211 | On a number: a dead cell is born with 3, and a live cell survives with 2 or 3 and dies otherwise (Conway's rule). A dead cell with any other count is not written. On `NaN`: a live cell is rewritten as 1 and a dead cell is not written. |
| Life.Transition | game-of-life.js:188-215 | The scratch grid after the rules has the board's shape, and it is 0/1 whenever the old scratch grid was. |
| Life.TransitionSettled | game-of-life.js:188-229 | If every dead board cell is dead in the scratch grid, the rules give the same result as on an all-dead scratch grid: the step depends on the board alone. |
| Life.Generation | game-of-life.js:251-252 | One step as update performs it from a settled state: the rules applied over an all-dead scratch grid. The contract states only that the shape is kept. `Life.TransitionSettled`, `Life.GenerationBinary`, `Life.GenerationInterior` and `Life.GenerationEdgeFrozen` characterise it. |
| Life.GenerationBinary | game-of-life.js:188-229 | One generation of a 0/1 grid is a 0/1 grid. |
| Life.GenerationInterior | game-of-life.js:188-215 | Away from the edge columns, a cell's next value is 1 exactly when Conway's rule says it lives, given its number of live on-board neighbours. |
| Life.GenerationEdgeFrozen | game-of-life.js:196-212 | In the first and the last column, a cell's next value equals its current value. |
| Life.LoneCellDies | game-of-life.js:200-206 | A live non-edge cell with no live neighbour dies in the next generation. |
| Life.LoneEdgeCellSurvives | game-of-life.js:200-211 | A lone live cell in the first column of a 3 x 3 board is still alive after one generation. |
| Life.FullBoardReferenceCounts | game-of-life.js:131-137 | On a board alive everywhere, the reference count of a first-column cell is 3 in the top row and 5 below it, where the code's count is `NaN`. |
| Life.LoneEdgeCellDiesByRule | game-of-life.js:131-137 | The lone first-column cell of `Life.LoneEdgeCellSurvives` has no live neighbour under the reference count, so Conway's rule kills it. |
| Life.BlinkerTurns | game-of-life.js:188-229 | In a 5 x 5 board with a horizontal blinker in row 2, one generation makes rows 1-3 of column 2 alive and kills cells (2, 1) and (2, 3). |
| Life.BlinkerCell12 | game-of-life.js:188-229 | The blinker's cell (1, 2) is born. |
| Life.BlinkerCell32 | game-of-life.js:188-229 | The blinker's cell (3, 2) is born. |
| Life.BlinkerCell22 | game-of-life.js:188-229 | The blinker's middle cell (2, 2) survives. |
| Life.BlinkerCell21 | game-of-life.js:188-229 | The blinker's end cell (2, 1) dies. |
| Life.BlinkerCell23 | game-of-life.js:188-229 | The blinker's end cell (2, 3) dies. |
| Life.Run | game-of-life.js:247-258 | Definition of k successive update steps (the `setInterval` timer of `start` calling update, lines 265-280), each one `Life.Generation`. The contract states only that the shape is kept. It is the definition `Life.BlankStaysBlank` is stated over. |
| Life.BlankIsStill | game-of-life.js:247-258 | One generation of the all-dead board is the all-dead board. |
| Life.BlankStaysBlank | game-of-life.js:247-258 | Any number of generations of the all-dead board is the all-dead board. |
| Patterns.Rejected | game-of-life.js:329-332 | Definition, with no contract, of the bounds check as written (`row + reach.0 > rows`, `row < 0`, `column + reach.1 > columns`, `column < 0`). It is also used for the gun, at game-of-life.js:362-365. This is the as-written half of the findings. `Patterns.GuardGap` and the two `...GuardAdmitsOverflow` lemmas characterise it. |
| Patterns.Fits | game-of-life.js:328-341 | Definition, with no contract, of the strict check under which the whole footprint lies on the board. This is the corrected half of the findings. `Patterns.GliderFitsIff` and `Patterns.GunFitsIff` prove it equivalent to every write landing on the board. |
| Patterns.Stamp | game-of-life.js:337-341 | The grid with every cell at an offset in the set made 1 and every other cell kept. This models the writes at 337-341 and 370-412. The contract states only that the shape is kept. `Patterns.StampTwice` and `Patterns.StampKeepsInvariants` characterise it, and the stamp methods are proved against it. |
| Patterns.StampTwice | game-of-life.js:370-412 | Stamping one set of offsets and then another from the same origin is the same as stamping their union. |
| Patterns.GliderShape | game-of-life.js:337-341 | The glider is 5 distinct cells inside its 3 x 3 footprint. |
| Patterns.GunShape | game-of-life.js:370-412 | The glider gun is 36 distinct cells inside its 9 x 36 footprint. |
| Patterns.DisjointBands | game-of-life.js:370-412 | Two sets of cells in separate column bands have union size equal to the sum of their sizes. |
| Patterns.GliderFitsIff | game-of-life.js:329-341 | Every glider cell lands on the board if and only if the strict check holds, in both directions. |
| Patterns.GunFitsIff | game-of-life.js:362-412 | Every gun cell lands on the board if and only if the strict check holds, in both directions. |
| Patterns.GuardGap | game-of-life.js:329-332 | The strict check implies that the check as written passes. The two differ exactly on origins whose footprint ends on row `rows` or column `columns`. |
| Patterns.GliderGuardAdmitsOverflow | game-of-life.js:329-341 | The check as written admits origin (1, 1) on a 3 x 3 board. There offsets (2, 1), the second write, and (2, 2) are off the board. |
| Patterns.GunGuardAdmitsOverflow | game-of-life.js:362-383 | The check as written admits origin (0, 0) on an 8 x 36 board, where offset (8, 12) is off the board. |
| Patterns.StampKeepsInvariants | game-of-life.js:337-341 | Stamping keeps a grid 0/1 and keeps "dead in the board implies dead in the scratch grid". |
| Board.GameOfLife.Read | game-of-life.js:149 | Reading `board[r][c]` in an existing row agrees with reading the current grid's row. |
| Board.GameOfLife.constructor | game-of-life.js:13-23 | The cell size defaults to 25 when the setting is absent (0). Then resize runs, so the dimensions are derived and both grids are all-dead and settled. |
| Board.GameOfLife.Resize | game-of-life.js:37-67 | `rows` and `columns` are the derived maxima. Both grids are fresh, `rows` x `columns`, all 0, and settled. |
| Board.GameOfLife.BlankGrids | game-of-life.js:50-61 | The zero-fill loops produce two distinct fresh grids of the given size, with every cell 0. |
| Board.GameOfLife.BlankIsSettled | game-of-life.js:58-59 | Two distinct all-dead grids of the board's shape satisfy the invariants and are the blank grid. |
| Board.GameOfLife.GetNeighbourCount | game-of-life.js:139-183 | The guarded additions compute exactly `Life.NeighbourCount` of the current grid. The method cannot modify the board. |
| Board.GameOfLife.DetermineNextState | game-of-life.js:188-215 | The board is unchanged, and the scratch grid becomes the rules applied to every cell (`Life.Transition`) over its old contents. |
| Board.GameOfLife.DetermineRow | game-of-life.js:192-213 | Every cell of one row gets the rule value given its count and its old slot. No other row changes. |
| Board.GameOfLife.ApplyRules | game-of-life.js:194-212 | One cell's scratch slot gets the rule value given its count and its old value. No other slot changes. |
| Board.GameOfLife.MoveToNextState | game-of-life.js:220-229 | The board becomes a copy of the old scratch grid, which is unchanged, and the state is settled. |
| Board.GameOfLife.Update | game-of-life.js:247-258 | From a settled state, the board becomes one `Life.Generation` of the old board. The scratch grid equals the board, and the state stays settled. |
| Board.GameOfLife.CreateGlider | game-of-life.js:326-349 | The method returns false exactly when the check as written rejects the origin, and then nothing changes. Otherwise the board becomes the glider stamped at the origin. The invariants are kept. |
| Board.GameOfLife.WriteGlider | game-of-life.js:337-341 | The five writes make exactly the glider's cells alive and leave every other cell as it was. |
| Board.GameOfLife.CreateGliderGun | game-of-life.js:359-420 | The method returns false exactly when the check as written rejects the origin, and then nothing changes. Otherwise the board becomes the 36-cell gun stamped at the origin. The invariants are kept. |
| Board.GameOfLife.StampGunLeftSquare | game-of-life.js:370-374 | The board becomes the old board with the left square stamped. The invariants are kept. |
| Board.GameOfLife.StampGunCircleLow | game-of-life.js:376-383 | The board becomes the old board with the circle's cells in columns 10-12 stamped. The invariants are kept. |
| Board.GameOfLife.StampGunCircleHigh | game-of-life.js:384-392 | The board becomes the old board with the circle's cells in columns 13-17 stamped. The invariants are kept. |
| Board.GameOfLife.StampGunArrow | game-of-life.js:394-406 | The board becomes the old board with the arrow stamped. The invariants are kept. |
| Board.GameOfLife.StampGunRightSquare | game-of-life.js:408-412 | The board becomes the old board with the right square stamped. The invariants are kept. |
| Board.GameOfLife.WriteGunLeftSquare | game-of-life.js:370-374 | The writes make exactly the left square's cells alive and change nothing else. |
| Board.GameOfLife.WriteGunCircleLow | game-of-life.js:376-383 | The writes make exactly the circle's cells in columns 10-12 alive and change nothing else. |
| Board.GameOfLife.WriteGunCircleHigh | game-of-life.js:384-392 | The writes make exactly the circle's cells in columns 13-17 alive and change nothing else. |
| Board.GameOfLife.WriteGunArrow | game-of-life.js:394-406 | The writes make exactly the arrow's cells alive and change nothing else. |
| Board.GameOfLife.WriteGunRightSquare | game-of-life.js:408-412 | The writes make exactly the right square's cells alive and change nothing else. |
| Board.GameOfLife.Stamped | game-of-life.js:337-341 | A board that holds a grid with exactly the stamped cells made alive holds the stamped grid. The invariants that held before still hold, carried over by `Patterns.StampKeepsInvariants`. |
| Board.GameOfLife.SetAlive | game-of-life.js:436 | The one cell becomes 1 and nothing else changes. The invariants are kept. |
| Board.GameOfLife.FillByClick | game-of-life.js:428-436 | The cell in row `y / cellSize` and column `x / cellSize` becomes 1 and nothing else changes. The invariants are kept. |

## Left out

- Canvas rendering is not modelled: `drawLine`, `fillCell`, `fillCells`, `clear`, and the redraw inside `update` and `fillByClick` (game-of-life.js:69-129, 234-242, 249-250, 437). They only draw on a canvas.
- Timer control is not modelled: `start`, `stop` and `toggle` (game-of-life.js:265-316). They wrap `setInterval`/`clearInterval`, and `Update` is the step they schedule.
- Debug logging behind `settings.debug` is not modelled.
- Settings coercion is reduced to what matters. A setting that is absent or 0 is passed as 0.
- Board.GameOfLife.constructor: requires a cell-size setting `>= 0`. Negative or fractional cell sizes are not modelled.
- Resize: takes the canvas size as natural numbers. The source divides floating-point sizes and floors the result.
- Resize: replaces both grids with fresh arrays. In the source, rows beyond a smaller new `rows` stay in the `board` object, but nothing modelled here reads them.
- FillByClick: takes non-negative integer pixel coordinates and requires the cell to be on the board. Reading `clientX`/`clientY` from the DOM event is not modelled. For an off-board row the source throws a `TypeError` (or, after a shrinking resize, writes silently into a stale row); for an off-board column it extends the row. No error result is modelled for a click off the board.
- CreateGlider: requires that the check as written rejects the origin or that the strict check admits it. The origins in between are excluded. For them the source writes row `rows`, which throws a `TypeError` (or, after a shrinking resize, writes silently into a stale row), or column `columns`, which grows the row. JavaScript arrays cannot be represented by fixed-size arrays.
- CreateGliderGun: has the same precondition as CreateGlider, over the gun's footprint, for the same reason.
- Board.GameOfLife.GetNeighbourCount: requires the cell to be on the board. The source only calls it like that, from `determineNextState`.
- `NaN` arithmetic is represented by `None`. Only the operations the count and the rules perform on it are modelled (`+`, `==`, `<`, `>`).
- Life.BlinkerTurns: states only the blinker's five changing cells after one step, not the whole 5 x 5 grid, and not its return two steps later. Each cell of a concrete grid costs a lemma of its own. No block (still life) fixture is stated. The general lemmas cover such patterns away from the edge columns (`Life.GenerationInterior`, `Life.LoneCellDies`).
- Board.GameOfLife.constructor: fixes `maxRows` and `maxColumns` at construction. The source re-reads them from the caller's settings object on every `resize` (game-of-life.js:11, 40, 45), so later changes to that object are not modelled.

## Findings

| source | as written | input that shows it | evidently intended | confidence | as-written member | corrected member |
|---|---|---|---|---|---|---|
| game-of-life.js:329-341 | `row+2 > rows` and `column+2 > columns` reject only footprints ending beyond row/column `rows`/`columns` | 3 x 3 board, origin (1, 1): admitted, but offset (2, 1) indexes `board[3]`: TypeError after one write | the glider is created only when all of its 3 x 3 footprint is on the board (`row+2 < rows`, `column+2 < columns`) | not executed | Patterns.Rejected, Patterns.GliderGuardAdmitsOverflow | Patterns.Fits, Patterns.GliderFitsIff |
| game-of-life.js:362-412 | `row+8 > rows` and `column+35 > columns`, the same off-by-one | 8 x 36 board, origin (0, 0): admitted, but offset (8, 12), line 383, indexes `board[8]`: TypeError after ten writes | the gun is created only when all of its 9 x 36 footprint is on the board (`row+8 < rows`, `column+35 < columns`) | not executed | Patterns.Rejected, Patterns.GunGuardAdmitsOverflow | Patterns.Fits, Patterns.GunFitsIff |
| game-of-life.js:147-178 | the column guards `columnToRight < columns` and `columnToLeft >= 0` hold for every on-board column, so column -1 and column `columns` are read as well | all-alive board, cell (1, 0): the count is `NaN`, not 5, and a lone live cell in column 0 never dies | the guards skip off-board columns: the count is the live on-board 8-neighbourhood (3 at a corner, 5 on an edge), and edge cells follow Conway's rule | not executed | Life.NeighbourCountUndefined, Life.FullBoardCounts, Life.GenerationEdgeFrozen, Life.LoneEdgeCellSurvives | Life.LiveNeighbours, Life.NeighbourCountInterior, Life.FullBoardReferenceCounts, Life.LoneEdgeCellDiesByRule |
