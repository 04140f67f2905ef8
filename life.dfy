/**
 * The value-level model of one Game of Life board: a grid of cells, the
 * neighbour count exactly as the board object computes it (including the
 * JavaScript `undefined`/`NaN` it produces in the first and last column),
 * the life rules as written, and one generation of the automaton.
 *
 * The class in board.dfy is specified against these functions.
 */
module Life {

  /** `None` stands for a JavaScript value that is not a number: `undefined` or `NaN`. */
  datatype Option<T> = None | Some(value: T)

  /** `g[i][j]` is the cell in row `i`, column `j`; 0 is dead, 1 is alive. */
  type Grid = seq<seq<int>>

  /** Every row of `g` has `columns` cells. */
  ghost predicate Rect(g: Grid, columns: nat)
  {
    forall i :: 0 <= i < |g| ==> |g[i]| == columns
  }

  /** Every cell of `g` is 0 or 1. */
  ghost predicate Binary(g: Grid)
  {
    forall i, j :: 0 <= i < |g| && 0 <= j < |g[i]| ==> g[i][j] == 0 || g[i][j] == 1
  }

  /** The all-dead grid of the given size, as resize leaves both grids. */
  function Blank(rows: nat, columns: nat): Grid
  {
    seq(rows, _ => seq(columns, _ => 0))
  }

  // ---------------------------------------------------------------------
  // Board sizing

  /**
   * The number of rows (or columns) resize derives: the number of whole
   * cells that fit in the canvas extent, raised to `limit` when `limit` is
   * set (non-zero) and larger. An absent setting is passed as 0.
   */
  function Dimension(extent: nat, cellSize: int, limit: int): (n: nat)
    requires cellSize > 0
    ensures n >= extent / cellSize && n >= limit
    ensures n == extent / cellSize || n == limit
    ensures n == extent / cellSize ==> n * cellSize <= extent < (n + 1) * cellSize
  {
    if limit != 0 && limit > extent / cellSize then limit else extent / cellSize
  }

  // ---------------------------------------------------------------------
  // JavaScript number semantics needed by the neighbour count and the rules

  /** Reading `cells[c]`: a number inside the row, `undefined` outside it. */
  function ReadRow(cells: seq<int>, c: int): Option<int>
  {
    if 0 <= c < |cells| then Some(cells[c]) else None
  }

  /** `a + b` on numbers: `undefined` or `NaN` on either side gives `NaN`. */
  function Plus(a: Option<int>, b: Option<int>): Option<int>
  {
    if a.Some? && b.Some? then Some(a.value + b.value) else None
  }

  /** One guarded `count = count + cells[c]` of the neighbour count. */
  function AddIf(count: Option<int>, guard: bool, cells: seq<int>, c: int): Option<int>
  {
    if guard then Plus(count, ReadRow(cells, c)) else count
  }

  /** `n == k` for a number literal `k`; false when `n` is `NaN`. */
  predicate Eq(n: Option<int>, k: int) { n.Some? && n.value == k }

  /** `n < k`; false when `n` is `NaN`. */
  predicate Lt(n: Option<int>, k: int) { n.Some? && n.value < k }

  /** `n > k`; false when `n` is `NaN`. */
  predicate Gt(n: Option<int>, k: int) { n.Some? && n.value > k }

  // ---------------------------------------------------------------------
  // Neighbour counting

  /**
   * The two guarded reads of getNeighbourCount in one row: the cell at
   * `column - 1`, added when `column - 1 < columns`, and the cell at
   * `column + 1`, added when `column + 1 >= 0`. For a column on the board
   * both guards always hold, so both reads happen.
   */
  function AddSides(count: Option<int>, cells: seq<int>, columns: nat, column: int): Option<int>
  {
    var columnToRight, columnToLeft := column - 1, column + 1;
    AddIf(AddIf(count, columnToRight < columns, cells, columnToRight), columnToLeft >= 0, cells, columnToLeft)
  }

  /**
   * The first part of getNeighbourCount: the two side cells of the own row,
   * then the three cells of the row above when `row - 1 >= 0`.
   */
  function CountToAbove(g: Grid, columns: nat, row: int, column: int): Option<int>
    requires Rect(g, columns) && 0 <= row < |g| && 0 <= column < columns
  {
    var rowAbove := row - 1;
    var inRow := AddSides(Some(0), g[row], columns, column);
    if rowAbove >= 0 then AddSides(Plus(inRow, ReadRow(g[rowAbove], column)), g[rowAbove], columns, column)
    else inRow
  }

  /** getNeighbourCount as written: CountToAbove, then the three cells of the row below when `row + 1 < rows`. */
  function NeighbourCount(g: Grid, columns: nat, row: int, column: int): Option<int>
    requires Rect(g, columns) && 0 <= row < |g| && 0 <= column < columns
  {
    var rowBelow := row + 1;
    var withAbove := CountToAbove(g, columns, row, column);
    if rowBelow < |g| then AddSides(Plus(withAbove, ReadRow(g[rowBelow], column)), g[rowBelow], columns, column)
    else withAbove
  }

  /** Away from the first and last column both side reads are numbers. */
  lemma AddSidesInterior(count: Option<int>, cells: seq<int>, columns: nat, column: int)
    requires |cells| == columns && 0 < column < columns - 1
    ensures AddSides(count, cells, columns, column) == Plus(count, Some(cells[column - 1] + cells[column + 1]))
  {
  }

  /** In the first and the last column one side read is `undefined`, so the sum is `NaN`. */
  lemma AddSidesEdge(count: Option<int>, cells: seq<int>, columns: nat, column: int)
    requires |cells| == columns && 0 <= column < columns && (column == 0 || column == columns - 1)
    ensures AddSides(count, cells, columns, column) == None
  {
  }

  /** The eight neighbour offsets (row, column) of a cell. */
  const Neighbourhood: seq<(int, int)> :=
    [(-1, -1), (-1, 0), (-1, 1), (0, -1), (0, 1), (1, -1), (1, 0), (1, 1)]

  /** 1 when (r, c) lies on the board and holds a live cell, else 0. */
  function Live(g: Grid, columns: nat, r: int, c: int): (v: nat)
    requires Rect(g, columns)
    ensures v <= 1
  {
    if 0 <= r < |g| && 0 <= c < columns && g[r][c] == 1 then 1 else 0
  }

  /** The number of live cells at the given offsets from (row, column) that lie on the board. */
  function LiveAmong(g: Grid, columns: nat, row: int, column: int, offsets: seq<(int, int)>): nat
    requires Rect(g, columns)
    decreases |offsets|
  {
    if offsets == [] then 0
    else Live(g, columns, row + offsets[0].0, column + offsets[0].1)
         + LiveAmong(g, columns, row, column, offsets[1..])
  }

  /** Reference definition: the live cells among the on-board 8-neighbourhood. */
  function LiveNeighbours(g: Grid, columns: nat, row: int, column: int): nat
    requires Rect(g, columns)
  {
    LiveAmong(g, columns, row, column, Neighbourhood)
  }

  lemma {:induction false} LiveAmongBound(g: Grid, columns: nat, row: int, column: int, offsets: seq<(int, int)>)
    requires Rect(g, columns)
    ensures LiveAmong(g, columns, row, column, offsets) <= |offsets|
    decreases |offsets|
  {
    if offsets != [] {
      LiveAmongBound(g, columns, row, column, offsets[1..]);
    }
  }

  /** LiveNeighbours written out as the sum of its eight terms. */
  lemma LiveNeighboursUnfold(g: Grid, columns: nat, row: int, column: int)
    requires Rect(g, columns)
    ensures LiveNeighbours(g, columns, row, column) ==
      Live(g, columns, row - 1, column - 1) + Live(g, columns, row - 1, column) +
      Live(g, columns, row - 1, column + 1) + Live(g, columns, row, column - 1) +
      Live(g, columns, row, column + 1) + Live(g, columns, row + 1, column - 1) +
      Live(g, columns, row + 1, column) + Live(g, columns, row + 1, column + 1)
  {
    var o := Neighbourhood;
    assert o[1..][1..][1..][1..][1..][1..][1..][1..] == [];
  }

  /**
   * In a column with a neighbour column on both sides, the count is a
   * number: the live cells of the on-board 8-neighbourhood, at most 8.
   * The row above is left out in row 0 and the row below in the last row.
   */
  lemma NeighbourCountInterior(g: Grid, columns: nat, row: int, column: int)
    requires Rect(g, columns) && Binary(g)
    requires 0 <= row < |g| && 0 < column < columns - 1
    ensures NeighbourCount(g, columns, row, column) == Some(LiveNeighbours(g, columns, row, column))
    ensures LiveNeighbours(g, columns, row, column) <= 8
  {
    LiveNeighboursUnfold(g, columns, row, column);
    LiveAmongBound(g, columns, row, column, Neighbourhood);
    CountToAboveInterior(g, columns, row, column);
    var withAbove := CountToAbove(g, columns, row, column);
    if row + 1 < |g| {
      AddRowInterior(withAbove, g, columns, row + 1, column);
    }
  }

  /** CountToAbove away from the edge columns: the live cells beside and above (row, column). */
  lemma CountToAboveInterior(g: Grid, columns: nat, row: int, column: int)
    requires Rect(g, columns) && Binary(g)
    requires 0 <= row < |g| && 0 < column < columns - 1
    ensures CountToAbove(g, columns, row, column) == Some(
      Live(g, columns, row, column - 1) + Live(g, columns, row, column + 1) +
      Live(g, columns, row - 1, column - 1) + Live(g, columns, row - 1, column) + Live(g, columns, row - 1, column + 1))
  {
    LiveRow(g, columns, row, column);
    AddSidesInterior(Some(0), g[row], columns, column);
    if row - 1 >= 0 {
      AddRowInterior(AddSides(Some(0), g[row], columns, column), g, columns, row - 1, column);
    }
  }

  /** Adding the three cells of row `r` around a non-edge column adds their live cells. */
  lemma AddRowInterior(count: Option<int>, g: Grid, columns: nat, r: int, column: int)
    requires Rect(g, columns) && Binary(g)
    requires 0 <= r < |g| && 0 < column < columns - 1
    ensures AddSides(Plus(count, ReadRow(g[r], column)), g[r], columns, column) ==
      Plus(count, Some(Live(g, columns, r, column - 1) + Live(g, columns, r, column) + Live(g, columns, r, column + 1)))
  {
    LiveRow(g, columns, r, column);
    AddSidesInterior(Plus(count, ReadRow(g[r], column)), g[r], columns, column);
  }

  /** Inside a binary grid, Live reads the cell itself for the three cells around `column` in row `r`. */
  lemma LiveRow(g: Grid, columns: nat, r: int, column: int)
    requires Rect(g, columns) && Binary(g) && 0 < column < columns - 1
    ensures 0 <= r < |g| ==> ReadRow(g[r], column) == Some(g[r][column])
    ensures 0 <= r < |g| ==>
      Live(g, columns, r, column - 1) == g[r][column - 1] &&
      Live(g, columns, r, column) == g[r][column] &&
      Live(g, columns, r, column + 1) == g[r][column + 1]
  {
    if 0 <= r < |g| {
      assert g[r][column - 1] == 0 || g[r][column - 1] == 1;
      assert g[r][column] == 0 || g[r][column] == 1;
      assert g[r][column + 1] == 0 || g[r][column + 1] == 1;
    }
  }

  /** The count is `NaN` exactly in the first and the last column. */
  lemma NeighbourCountUndefined(g: Grid, columns: nat, row: int, column: int)
    requires Rect(g, columns) && 0 <= row < |g| && 0 <= column < columns
    ensures NeighbourCount(g, columns, row, column).None? <==> column == 0 || column == columns - 1
  {
  }

  // ---------------------------------------------------------------------
  // The life rules

  /**
   * The write determineNextState performs for one cell with neighbour
   * count `n`: `Some(v)` writes `v` into the next state, `None` writes
   * nothing.
   */
  function Rule(cell: int, n: Option<int>): Option<int>
  {
    if cell == 0 && Eq(n, 3) then Some(1)              // rule 4: birth
    else if cell == 1 then
      if Lt(n, 2) || Gt(n, 3) then Some(0)             // rules 1 and 3: death
      else Some(1)                                     // rule 2: survival
    else None
  }

  /** The next-state value of a cell whose next-state slot held `prev`. */
  function NextCell(cell: int, n: Option<int>, prev: int): (v: int)
    ensures v == prev || v == 0 || v == 1
  {
    match Rule(cell, n)
    case Some(w) => w
    case None => prev
  }

  /** Reference definition of Conway's rule: does a cell live in the next generation? */
  predicate Conway(alive: bool, n: int)
  {
    if alive then n == 2 || n == 3 else n == 3
  }

  /**
   * The rule table on a number: a dead cell is born with 3, a live cell
   * survives with 2 or 3 and dies otherwise, and a dead cell with any other
   * count is not written. On `NaN` a live cell is rewritten as alive and a
   * dead cell is not written.
   */
  lemma RuleTable(cell: int, n: Option<int>)
    requires cell == 0 || cell == 1
    ensures n.Some? ==>
      (Rule(cell, n).None? <==> cell == 0 && n.value != 3) &&
      (Rule(cell, n).Some? ==> (Rule(cell, n).value == 1 <==> Conway(cell == 1, n.value)))
    ensures n.None? ==> Rule(cell, n) == if cell == 1 then Some(1) else None
  {
  }

  // ---------------------------------------------------------------------
  // One generation

  /**
   * determineNextState: the next-state grid computed from the current grid
   * `g` and the previous contents `next` of the next-state grid.
   */
  function Transition(g: Grid, columns: nat, next: Grid): (r: Grid)
    requires Rect(g, columns) && Rect(next, columns) && |next| == |g|
    ensures |r| == |g| && Rect(r, columns)
    ensures Binary(next) ==> Binary(r)
  {
    seq(|g|, i requires 0 <= i < |g| =>
      seq(columns, j requires 0 <= j < columns =>
        NextCell(g[i][j], NeighbourCount(g, columns, i, j), next[i][j])))
  }

  /** Every cell dead in `g` is dead in `next`: what holds between two steps. */
  ghost predicate DeadImpliesDead(g: Grid, next: Grid, columns: nat)
    requires Rect(g, columns) && Rect(next, columns) && |next| == |g|
  {
    forall i, j :: 0 <= i < |g| && 0 <= j < columns && g[i][j] == 0 ==> next[i][j] == 0
  }

  /** One step of the board as update performs it from a settled state. */
  function Generation(g: Grid, columns: nat): (r: Grid)
    requires Rect(g, columns)
    ensures |r| == |g| && Rect(r, columns)
  {
    Transition(g, columns, Blank(|g|, columns))
  }

  /**
   * Between steps the slots that determineNextState leaves unwritten hold
   * 0, so the step does not depend on the rest of the old next state.
   */
  lemma TransitionSettled(g: Grid, columns: nat, next: Grid)
    requires Rect(g, columns) && Rect(next, columns) && |next| == |g|
    requires Binary(g) && DeadImpliesDead(g, next, columns)
    ensures Transition(g, columns, next) == Generation(g, columns)
  {
    var a, b := Transition(g, columns, next), Generation(g, columns);
    forall i | 0 <= i < |g|
      ensures a[i] == b[i]
    {
      forall j | 0 <= j < columns
        ensures a[i][j] == b[i][j]
      {
        assert g[i][j] == 0 || g[i][j] == 1;
      }
    }
  }

  lemma GenerationBinary(g: Grid, columns: nat)
    requires Rect(g, columns) && Binary(g)
    ensures Binary(Generation(g, columns))
  {
    var z := Blank(|g|, columns);
    assert Binary(z) by {
      forall i, j | 0 <= i < |z| && 0 <= j < |z[i]| ensures z[i][j] == 0 { }
    }
  }

  /** Away from the first and last column, one generation is Conway's rule. */
  lemma GenerationInterior(g: Grid, columns: nat, row: int, column: int)
    requires Rect(g, columns) && Binary(g)
    requires 0 <= row < |g| && 0 < column < columns - 1
    ensures Generation(g, columns)[row][column] ==
      if Conway(g[row][column] == 1, LiveNeighbours(g, columns, row, column)) then 1 else 0
  {
    NeighbourCountInterior(g, columns, row, column);
    assert g[row][column] == 0 || g[row][column] == 1;
  }

  /**
   * In the first and the last column no cell ever changes: a live cell is
   * rewritten as alive and a dead one is left as the 0 its slot holds.
   */
  lemma GenerationEdgeFrozen(g: Grid, columns: nat, row: int, column: int)
    requires Rect(g, columns) && Binary(g)
    requires 0 <= row < |g| && 0 <= column < columns
    requires column == 0 || column == columns - 1
    ensures Generation(g, columns)[row][column] == g[row][column]
  {
    NeighbourCountUndefined(g, columns, row, column);
    assert g[row][column] == 0 || g[row][column] == 1;
  }

  /** `k` successive generations. */
  function Run(g: Grid, columns: nat, k: nat): (r: Grid)
    requires Rect(g, columns)
    ensures |r| == |g| && Rect(r, columns)
    decreases k
  {
    if k == 0 then g else Run(Generation(g, columns), columns, k - 1)
  }

  lemma BlankIsStill(rows: nat, columns: nat)
    ensures Generation(Blank(rows, columns), columns) == Blank(rows, columns)
  {
    var z := Blank(rows, columns);
    var r := Generation(z, columns);
    forall i | 0 <= i < rows
      ensures r[i] == z[i]
    {
      forall j | 0 <= j < columns
        ensures r[i][j] == z[i][j]
      {
        var n := NeighbourCount(z, columns, i, j);
        assert n == Some(0) || n == None;
      }
    }
  }

  /** An empty board stays empty for any number of generations. */
  lemma {:induction false} BlankStaysBlank(rows: nat, columns: nat, k: nat)
    ensures Run(Blank(rows, columns), columns, k) == Blank(rows, columns)
    decreases k
  {
    if k > 0 {
      BlankIsStill(rows, columns);
      BlankStaysBlank(rows, columns, k - 1);
    }
  }

  /** A blinker: three live cells in row 2 of a 5 x 5 board. */
  const Blinker: Grid := [[0, 0, 0, 0, 0], [0, 0, 0, 0, 0], [0, 1, 1, 1, 0], [0, 0, 0, 0, 0], [0, 0, 0, 0, 0]]

  lemma BlinkerShape()
    ensures Rect(Blinker, 5) && Binary(Blinker)
  {
    forall i, j | 0 <= i < |Blinker| && 0 <= j < |Blinker[i]|
      ensures Blinker[i][j] == 0 || Blinker[i][j] == 1
    {
    }
  }

  /**
   * The blinker turns: its middle column becomes alive and the ends of its
   * row die, one cell per lemma below.
   */
  lemma BlinkerTurns()
    ensures Generation(Blinker, 5)[1][2] == 1 && Generation(Blinker, 5)[3][2] == 1
    ensures Generation(Blinker, 5)[2][2] == 1
    ensures Generation(Blinker, 5)[2][1] == 0 && Generation(Blinker, 5)[2][3] == 0
  {
    BlinkerCell12();
    BlinkerCell32();
    BlinkerCell22();
    BlinkerCell21();
    BlinkerCell23();
  }

  lemma BlinkerCell12()
    ensures Generation(Blinker, 5)[1][2] == 1
  {
    BlinkerShape();
    LiveNeighboursUnfold(Blinker, 5, 1, 2);
    GenerationInterior(Blinker, 5, 1, 2);
  }

  lemma BlinkerCell32()
    ensures Generation(Blinker, 5)[3][2] == 1
  {
    BlinkerShape();
    LiveNeighboursUnfold(Blinker, 5, 3, 2);
    GenerationInterior(Blinker, 5, 3, 2);
  }

  lemma BlinkerCell22()
    ensures Generation(Blinker, 5)[2][2] == 1
  {
    BlinkerShape();
    LiveNeighboursUnfold(Blinker, 5, 2, 2);
    GenerationInterior(Blinker, 5, 2, 2);
  }

  lemma BlinkerCell21()
    ensures Generation(Blinker, 5)[2][1] == 0
  {
    BlinkerShape();
    LiveNeighboursUnfold(Blinker, 5, 2, 1);
    GenerationInterior(Blinker, 5, 2, 1);
  }

  lemma BlinkerCell23()
    ensures Generation(Blinker, 5)[2][3] == 0
  {
    BlinkerShape();
    LiveNeighboursUnfold(Blinker, 5, 2, 3);
    GenerationInterior(Blinker, 5, 2, 3);
  }

  /** A live cell with no live neighbour away from the edge columns dies. */
  lemma LoneCellDies(g: Grid, columns: nat, row: int, column: int)
    requires Rect(g, columns) && Binary(g)
    requires 0 <= row < |g| && 0 < column < columns - 1
    requires LiveNeighbours(g, columns, row, column) == 0
    ensures Generation(g, columns)[row][column] == 0
  {
    GenerationInterior(g, columns, row, column);
  }

  /** A lone live cell in the first column survives: the `NaN` count never kills it. */
  lemma LoneEdgeCellSurvives()
    ensures Generation([[0, 0, 0], [1, 0, 0], [0, 0, 0]], 3)[1][0] == 1
  {
    GenerationEdgeFrozen([[0, 0, 0], [1, 0, 0], [0, 0, 0]], 3, 1, 0);
  }

  /** On a board that is alive everywhere: 8 inside, 5 on the top row, `NaN` in the edge columns. */
  lemma FullBoardCounts(g: Grid, columns: nat, row: int, column: int)
    requires Rect(g, columns) && |g| >= 2 && 0 <= row < |g| && 0 <= column < columns
    requires forall i, j :: 0 <= i < |g| && 0 <= j < columns ==> g[i][j] == 1
    ensures 0 < row < |g| - 1 && 0 < column < columns - 1 ==> NeighbourCount(g, columns, row, column) == Some(8)
    ensures row == 0 && 0 < column < columns - 1 ==> NeighbourCount(g, columns, row, column) == Some(5)
    ensures column == 0 || column == columns - 1 ==> NeighbourCount(g, columns, row, column) == None
  {
    NeighbourCountUndefined(g, columns, row, column);
  }

  /**
   * The reference count on a board alive everywhere: 3 at the top-left
   * corner and 5 in the first column below it, as Conway's rule counts them
   * where the code's count is `NaN`.
   */
  lemma FullBoardReferenceCounts(g: Grid, columns: nat, row: int)
    requires Rect(g, columns) && |g| >= 2 && columns >= 2 && 0 <= row < |g| - 1
    requires forall i, j :: 0 <= i < |g| && 0 <= j < columns ==> g[i][j] == 1
    ensures row == 0 ==> LiveNeighbours(g, columns, row, 0) == 3
    ensures 0 < row ==> LiveNeighbours(g, columns, row, 0) == 5
  {
    LiveNeighboursUnfold(g, columns, row, 0);
  }

  /** Under the reference count, the lone first-column cell of LoneEdgeCellSurvives dies. */
  lemma LoneEdgeCellDiesByRule()
    ensures Rect([[0, 0, 0], [1, 0, 0], [0, 0, 0]], 3)
    ensures LiveNeighbours([[0, 0, 0], [1, 0, 0], [0, 0, 0]], 3, 1, 0) == 0
    ensures !Conway(true, LiveNeighbours([[0, 0, 0], [1, 0, 0], [0, 0, 0]], 3, 1, 0))
  {
    LiveNeighboursUnfold([[0, 0, 0], [1, 0, 0], [0, 0, 0]], 3, 1, 0);
  }

  /** Two grids of the same shape that agree cell by cell are equal. */
  lemma CellwiseEqual(a: Grid, b: Grid, columns: nat)
    requires Rect(a, columns) && Rect(b, columns) && |a| == |b|
    requires forall i, j :: 0 <= i < |a| && 0 <= j < columns ==> a[i][j] == b[i][j]
    ensures a == b
  {
    forall i | 0 <= i < |a|
      ensures a[i] == b[i]
    {
      assert forall j :: 0 <= j < columns ==> a[i][j] == b[i][j];
    }
  }
}
