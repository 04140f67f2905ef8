/**
 * The board object: its dimensions, cell size and size settings, the
 * current grid `board` and the scratch grid `nextState`, and the
 * operations that size, step, stamp and click-set it. Each method is
 * specified against the value-level model in modules Life and Patterns.
 */
module Board {
  import opened Life
  import Patterns

  /** The cells of a two-dimensional array as a grid value. */
  ghost function Snapshot(a: array2<int>): (g: Grid)
    reads a
  {
    seq(a.Length0, i requires 0 <= i < a.Length0 reads a =>
      seq(a.Length1, j requires 0 <= j < a.Length1 reads a => a[i, j]))
  }

  /** An array whose cells agree with a grid of its shape has that grid as its snapshot. */
  lemma SnapshotIs(a: array2<int>, t: Grid)
    requires |t| == a.Length0 && Rect(t, a.Length1)
    requires forall i, j :: 0 <= i < a.Length0 && 0 <= j < a.Length1 ==> a[i, j] == t[i][j]
    ensures Snapshot(a) == t
  {
    CellwiseEqual(Snapshot(a), t, a.Length1);
  }

  class GameOfLife {
    /** The side of a cell in pixels. */
    const cellSize: int
    /** The row and column settings that raise the derived size; 0 when absent. */
    const maxRows: int
    const maxColumns: int

    var rows: nat
    var columns: nat
    /** The current generation, `board[i, j]` for row `i` and column `j`. */
    var board: array2<int>
    /** The scratch grid determineNextState writes and moveToNextState copies back. */
    var nextState: array2<int>

    /** Both grids are `rows` x `columns`, and they are two different arrays. */
    ghost predicate Shaped()
      reads this
    {
      cellSize > 0 && board != nextState &&
      board.Length0 == rows && board.Length1 == columns &&
      nextState.Length0 == rows && nextState.Length1 == columns
    }

    /** Shaped, and every cell of both grids is 0 or 1. */
    ghost predicate Valid()
      reads this, board, nextState
    {
      Shaped() &&
      (forall i, j :: 0 <= i < rows && 0 <= j < columns ==> board[i, j] == 0 || board[i, j] == 1) &&
      (forall i, j :: 0 <= i < rows && 0 <= j < columns ==> nextState[i, j] == 0 || nextState[i, j] == 1)
    }

    /** Valid, and every cell dead in `board` is dead in `nextState`: the state between two steps. */
    ghost predicate Settled()
      reads this, board, nextState
    {
      Valid() &&
      forall i, j :: 0 <= i < rows && 0 <= j < columns && board[i, j] == 0 ==> nextState[i, j] == 0
    }

    /** The current generation as a grid value. */
    ghost function Current(): Grid
      reads this, board
    {
      Snapshot(board)
    }

    /** The scratch grid as a grid value. */
    ghost function Next(): Grid
      reads this, nextState
    {
      Snapshot(nextState)
    }

    /** Reading `board[r][c]`: a number inside an existing row, `undefined` outside the row; only called with `r` on the board. */
    function Read(r: int, c: int): (v: Option<int>)
      reads this, board
      requires Shaped()
      ensures 0 <= r < rows ==> v == ReadRow(Current()[r], c)
    {
      if 0 <= r < rows && 0 <= c < columns then Some(board[r, c]) else None
    }

    /**
     * The constructor: the cell size setting, 0 when absent, defaults to
     * 25; the board is then sized from the canvas.
     */
    constructor (width: nat, height: nat, cellSizeSetting: int, maxRows: int, maxColumns: int)
      requires cellSizeSetting >= 0
      ensures cellSize == if cellSizeSetting == 0 then 25 else cellSizeSetting
      ensures this.maxRows == maxRows && this.maxColumns == maxColumns
      ensures rows == Dimension(height, cellSize, maxRows)
      ensures columns == Dimension(width, cellSize, maxColumns)
      ensures Settled() && fresh(board) && fresh(nextState)
      ensures Current() == Blank(rows, columns) && Next() == Blank(rows, columns)
    {
      cellSize := if cellSizeSetting != 0 then cellSizeSetting else 25;
      this.maxRows, this.maxColumns := maxRows, maxColumns;
      rows, columns := 0, 0;
      board := new int[0, 0];
      nextState := new int[0, 0];
      new;
      Resize(width, height);
    }

    /**
     * resize: derive the dimensions from the canvas size and the settings,
     * and replace both grids by fresh all-dead ones.
     */
    method Resize(width: nat, height: nat)
      requires cellSize > 0
      modifies this
      ensures rows == Dimension(height, cellSize, maxRows)
      ensures columns == Dimension(width, cellSize, maxColumns)
      ensures Settled() && fresh(board) && fresh(nextState)
      ensures Current() == Blank(rows, columns) && Next() == Blank(rows, columns)
    {
      var r := height / cellSize;
      if maxRows != 0 && maxRows > r {
        r := maxRows;
      }
      assert r == Dimension(height, cellSize, maxRows);
      var c := width / cellSize;
      if maxColumns != 0 && maxColumns > c {
        c := maxColumns;
      }
      assert c == Dimension(width, cellSize, maxColumns);
      var current, next := BlankGrids(r, c);
      rows, columns := r, c;
      board, nextState := current, next;
      BlankIsSettled();
    }

    /** Two distinct all-dead grids of the board's shape: the state resize leaves. */
    lemma BlankIsSettled()
      requires cellSize > 0 && board != nextState
      requires board.Length0 == rows && board.Length1 == columns
      requires nextState.Length0 == rows && nextState.Length1 == columns
      requires forall k, l :: 0 <= k < rows && 0 <= l < columns ==> board[k, l] == 0 && nextState[k, l] == 0
      ensures Settled() && Current() == Blank(rows, columns) && Next() == Blank(rows, columns)
    {
      SnapshotIs(board, Blank(rows, columns));
      SnapshotIs(nextState, Blank(rows, columns));
    }

    /** The loops of resize: two fresh `r` x `c` grids with every cell 0. */
    static method BlankGrids(r: nat, c: nat) returns (current: array2<int>, next: array2<int>)
      ensures fresh(current) && fresh(next) && current != next
      ensures current.Length0 == r && current.Length1 == c && next.Length0 == r && next.Length1 == c
      ensures forall k, l :: 0 <= k < r && 0 <= l < c ==> current[k, l] == 0 && next[k, l] == 0
    {
      current := new int[r, c];
      next := new int[r, c];
      for i := 0 to r
        invariant forall k, l :: 0 <= k < i && 0 <= l < c ==> current[k, l] == 0 && next[k, l] == 0
      {
        for j := 0 to c
          invariant forall k, l :: 0 <= k < i && 0 <= l < c ==> current[k, l] == 0 && next[k, l] == 0
          invariant forall l :: 0 <= l < j ==> current[i, l] == 0 && next[i, l] == 0
        {
          current[i, j] := 0;
          next[i, j] := 0;
        }
      }
    }

    /** getNeighbourCount: the count of the cell at (row, column), `NaN` in the edge columns. */
    method GetNeighbourCount(row: int, column: int) returns (count: Option<int>)
      requires Shaped() && 0 <= row < rows && 0 <= column < columns
      ensures count == NeighbourCount(Current(), columns, row, column)
    {
      count := Some(0);
      var columnToRight := column - 1;
      var columnToLeft := column + 1;
      var rowAbove := row - 1;
      var rowBelow := row + 1;

      if columnToRight < columns {
        count := Plus(count, Read(row, columnToRight));
      }
      if columnToLeft >= 0 {
        count := Plus(count, Read(row, columnToLeft));
      }
      // The row above.
      if rowAbove >= 0 {
        count := Plus(count, Read(rowAbove, column));
        if columnToRight < columns {
          count := Plus(count, Read(rowAbove, columnToRight));
        }
        if columnToLeft >= 0 {
          count := Plus(count, Read(rowAbove, columnToLeft));
        }
      }
      // The row below.
      if rowBelow < rows {
        count := Plus(count, Read(rowBelow, column));
        if columnToRight < columns {
          count := Plus(count, Read(rowBelow, columnToRight));
        }
        if columnToLeft >= 0 {
          count := Plus(count, Read(rowBelow, columnToLeft));
        }
      }
    }

    /**
     * determineNextState: apply the life rules to every cell, writing into
     * `nextState` only; `board` is not changed.
     */
    method DetermineNextState()
      requires Valid()
      modifies nextState
      ensures Valid() && Current() == old(Current())
      ensures Next() == Transition(Current(), columns, old(Next()))
    {
      ghost var g, prev := Current(), Next();
      ghost var t := Transition(g, columns, prev);
      for i := 0 to rows
        invariant Valid() && Current() == g
        invariant forall k, l :: 0 <= k < i && 0 <= l < columns ==> nextState[k, l] == t[k][l]
        invariant forall k, l :: i <= k < rows && 0 <= l < columns ==> nextState[k, l] == prev[k][l]
      {
        DetermineRow(i);
      }
      SnapshotIs(nextState, t);
    }

    /** The inner loop of determineNextState: the life rules for every cell of row `i`. */
    method DetermineRow(i: int)
      requires Valid() && 0 <= i < rows
      modifies nextState
      ensures Valid() && Current() == old(Current())
      ensures forall l :: 0 <= l < columns ==>
        nextState[i, l] == NextCell(board[i, l], NeighbourCount(Current(), columns, i, l), old(nextState[i, l]))
      ensures forall k, l :: 0 <= k < rows && 0 <= l < columns && k != i ==> nextState[k, l] == old(nextState[k, l])
    {
      for j := 0 to columns
        invariant Valid() && Current() == old(Current())
        invariant forall l :: 0 <= l < j ==>
          nextState[i, l] == NextCell(board[i, l], NeighbourCount(Current(), columns, i, l), old(nextState[i, l]))
        invariant forall l :: j <= l < columns ==> nextState[i, l] == old(nextState[i, l])
        invariant forall k, l :: 0 <= k < rows && 0 <= l < columns && k != i ==> nextState[k, l] == old(nextState[k, l])
      {
        ApplyRules(i, j);
      }
    }

    /** The body of determineNextState's loops: the life rules for the cell at (i, j). */
    method ApplyRules(i: int, j: int)
      requires Valid() && 0 <= i < rows && 0 <= j < columns
      modifies nextState
      ensures Valid()
      ensures nextState[i, j] == NextCell(board[i, j], NeighbourCount(Current(), columns, i, j), old(nextState[i, j]))
      ensures forall k, l :: 0 <= k < rows && 0 <= l < columns && (k != i || l != j) ==>
        nextState[k, l] == old(nextState[k, l])
    {
      var numberOfNeighbours := GetNeighbourCount(i, j);
      if board[i, j] == 0 && Eq(numberOfNeighbours, 3) {
        // Rule 4: birth.
        nextState[i, j] := 1;
      } else if board[i, j] == 1 {
        if Lt(numberOfNeighbours, 2) || Gt(numberOfNeighbours, 3) {
          // Rules 1 and 3: death.
          nextState[i, j] := 0;
        } else {
          // Rule 2: survival.
          nextState[i, j] := 1;
        }
      }
    }

    /** moveToNextState: copy every cell of `nextState` into `board`. */
    method MoveToNextState()
      requires Valid()
      modifies board
      ensures Settled()
      ensures Current() == old(Next()) && Next() == old(Next())
    {
      for i := 0 to rows
        invariant forall k, l :: 0 <= k < i && 0 <= l < columns ==> board[k, l] == nextState[k, l]
        invariant forall k, l :: i <= k < rows && 0 <= l < columns ==> board[k, l] == old(board[k, l])
      {
        for j := 0 to columns
          invariant forall k, l :: 0 <= k < i && 0 <= l < columns ==> board[k, l] == nextState[k, l]
          invariant forall l :: 0 <= l < j ==> board[i, l] == nextState[i, l]
          invariant forall k, l :: (i < k < rows && 0 <= l < columns) || (k == i && j <= l < columns) ==>
            board[k, l] == old(board[k, l])
        {
          board[i, j] := nextState[i, j];
        }
      }
      SnapshotIs(board, Next());
    }

    /** The board step of update (after drawing): determineNextState, then moveToNextState. */
    method Update()
      requires Settled()
      modifies board, nextState
      ensures Settled()
      ensures Current() == Generation(old(Current()), columns)
      ensures Next() == Current()
    {
      ghost var g := Current();
      ghost var prev := Next();
      assert Binary(g) && DeadImpliesDead(g, prev, columns);
      TransitionSettled(g, columns, prev);
      DetermineNextState();
      MoveToNextState();
    }

    /**
     * createGlider. The check as written rejects an origin off the board
     * or one whose footprint would end past row `rows` or column `columns`;
     * a glider is stamped under the strict check, when its whole 3 x 3
     * footprint lies on the board.
     */
    method CreateGlider(row: int, column: int) returns (created: bool)
      requires Valid()
      requires Patterns.Rejected(rows, columns, row, column, Patterns.GliderReach) ||
               Patterns.Fits(rows, columns, row, column, Patterns.GliderReach)
      modifies board
      ensures Valid() && (old(Settled()) ==> Settled())
      ensures created == !Patterns.Rejected(rows, columns, row, column, Patterns.GliderReach)
      ensures Current() ==
        if created then Patterns.Stamp(old(Current()), columns, row, column, Patterns.GliderCells)
        else old(Current())
    {
      if row + 2 > rows || row < 0 || column + 2 > columns || column < 0 {
        return false;
      }
      ghost var g := Current();
      WriteGlider(row, column);
      Stamped(g, row, column, Patterns.GliderCells);
      created := true;
    }

    /** The writes of createGlider, in its order. */
    method WriteGlider(row: int, column: int)
      requires Shaped() && Patterns.Fits(rows, columns, row, column, Patterns.GliderReach)
      modifies board
      ensures forall i, j :: 0 <= i < rows && 0 <= j < columns ==>
        board[i, j] == if (i - row, j - column) in Patterns.GliderCells then 1 else old(board[i, j])
    {
      board[row + 1, column + 0] := 1;
      board[row + 2, column + 1] := 1;
      board[row + 2, column + 2] := 1;
      board[row + 1, column + 2] := 1;
      board[row + 0, column + 2] := 1;
    }

    /**
     * createGliderGun, with the same checks as createGlider over the gun's
     * 9 x 36 footprint; the cells are written part by part, in the
     * source's order.
     */
    method CreateGliderGun(row: int, column: int) returns (created: bool)
      requires Valid()
      requires Patterns.Rejected(rows, columns, row, column, Patterns.GunReach) ||
               Patterns.Fits(rows, columns, row, column, Patterns.GunReach)
      modifies board
      ensures Valid() && (old(Settled()) ==> Settled())
      ensures created == !Patterns.Rejected(rows, columns, row, column, Patterns.GunReach)
      ensures Current() ==
        if created then Patterns.Stamp(old(Current()), columns, row, column, Patterns.GunCells)
        else old(Current())
    {
      if row + 8 > rows || row < 0 || column + 35 > columns || column < 0 {
        return false;
      }
      ghost var g := Current();
      StampGunLeftSquare(row, column);
      ghost var g1 := Current();
      StampGunCircleLow(row, column);
      StampGunCircleHigh(row, column);
      Patterns.StampTwice(g1, columns, row, column, Patterns.GunCircleLow, Patterns.GunCircleHigh);
      Patterns.StampTwice(g, columns, row, column, Patterns.GunLeftSquare, Patterns.GunCircle);
      StampGunArrow(row, column);
      Patterns.StampTwice(g, columns, row, column, Patterns.GunLeftSquare + Patterns.GunCircle, Patterns.GunArrow);
      StampGunRightSquare(row, column);
      Patterns.StampTwice(g, columns, row, column,
        Patterns.GunLeftSquare + Patterns.GunCircle + Patterns.GunArrow, Patterns.GunRightSquare);
      created := true;
    }

    /** Stamp the gun's left square. */
    method StampGunLeftSquare(row: int, column: int)
      requires Valid() && Patterns.Fits(rows, columns, row, column, Patterns.GunReach)
      modifies board
      ensures Valid() && (old(Settled()) ==> Settled())
      ensures Current() == Patterns.Stamp(old(Current()), columns, row, column, Patterns.GunLeftSquare)
    {
      ghost var g := Current();
      WriteGunLeftSquare(row, column);
      Stamped(g, row, column, Patterns.GunLeftSquare);
    }

    /** Stamp the gun's middle almost-circle, columns 10 to 12. */
    method StampGunCircleLow(row: int, column: int)
      requires Valid() && Patterns.Fits(rows, columns, row, column, Patterns.GunReach)
      modifies board
      ensures Valid() && (old(Settled()) ==> Settled())
      ensures Current() == Patterns.Stamp(old(Current()), columns, row, column, Patterns.GunCircleLow)
    {
      ghost var g := Current();
      WriteGunCircleLow(row, column);
      Stamped(g, row, column, Patterns.GunCircleLow);
    }

    /** Stamp the gun's middle almost-circle, columns 13 to 17. */
    method StampGunCircleHigh(row: int, column: int)
      requires Valid() && Patterns.Fits(rows, columns, row, column, Patterns.GunReach)
      modifies board
      ensures Valid() && (old(Settled()) ==> Settled())
      ensures Current() == Patterns.Stamp(old(Current()), columns, row, column, Patterns.GunCircleHigh)
    {
      ghost var g := Current();
      WriteGunCircleHigh(row, column);
      Stamped(g, row, column, Patterns.GunCircleHigh);
    }

    /** Stamp the gun's arrow. */
    method StampGunArrow(row: int, column: int)
      requires Valid() && Patterns.Fits(rows, columns, row, column, Patterns.GunReach)
      modifies board
      ensures Valid() && (old(Settled()) ==> Settled())
      ensures Current() == Patterns.Stamp(old(Current()), columns, row, column, Patterns.GunArrow)
    {
      ghost var g := Current();
      WriteGunArrow(row, column);
      Stamped(g, row, column, Patterns.GunArrow);
    }

    /** Stamp the gun's right square. */
    method StampGunRightSquare(row: int, column: int)
      requires Valid() && Patterns.Fits(rows, columns, row, column, Patterns.GunReach)
      modifies board
      ensures Valid() && (old(Settled()) ==> Settled())
      ensures Current() == Patterns.Stamp(old(Current()), columns, row, column, Patterns.GunRightSquare)
    {
      ghost var g := Current();
      WriteGunRightSquare(row, column);
      Stamped(g, row, column, Patterns.GunRightSquare);
    }

    /** The writes of the gun's left square. */
    method WriteGunLeftSquare(row: int, column: int)
      requires Shaped() && Patterns.Fits(rows, columns, row, column, Patterns.GunReach)
      modifies board
      ensures forall i, j :: 0 <= i < rows && 0 <= j < columns ==>
        board[i, j] == if (i - row, j - column) in Patterns.GunLeftSquare then 1 else old(board[i, j])
    {
      board[row + 4, column + 0] := 1;
      board[row + 4, column + 1] := 1;
      board[row + 5, column + 0] := 1;
      board[row + 5, column + 1] := 1;
    }

    /** The writes of the gun's middle almost-circle, columns 10 to 12. */
    method WriteGunCircleLow(row: int, column: int)
      requires Shaped() && Patterns.Fits(rows, columns, row, column, Patterns.GunReach)
      modifies board
      ensures forall i, j :: 0 <= i < rows && 0 <= j < columns ==>
        board[i, j] == if (i - row, j - column) in Patterns.GunCircleLow then 1 else old(board[i, j])
    {
      board[row + 4, column + 10] := 1;
      board[row + 5, column + 10] := 1;
      board[row + 6, column + 10] := 1;
      board[row + 3, column + 11] := 1;
      board[row + 7, column + 11] := 1;
      board[row + 2, column + 12] := 1;
      board[row + 8, column + 12] := 1;
    }

    /** The writes of the gun's middle almost-circle, columns 13 to 17. */
    method WriteGunCircleHigh(row: int, column: int)
      requires Shaped() && Patterns.Fits(rows, columns, row, column, Patterns.GunReach)
      modifies board
      ensures forall i, j :: 0 <= i < rows && 0 <= j < columns ==>
        board[i, j] == if (i - row, j - column) in Patterns.GunCircleHigh then 1 else old(board[i, j])
    {
      board[row + 2, column + 13] := 1;
      board[row + 8, column + 13] := 1;
      board[row + 5, column + 14] := 1;
      board[row + 3, column + 15] := 1;
      board[row + 4, column + 16] := 1;
      board[row + 5, column + 16] := 1;
      board[row + 6, column + 16] := 1;
      board[row + 7, column + 15] := 1;
      board[row + 5, column + 17] := 1;
    }

    /** The writes of the gun's arrow. */
    method WriteGunArrow(row: int, column: int)
      requires Shaped() && Patterns.Fits(rows, columns, row, column, Patterns.GunReach)
      modifies board
      ensures forall i, j :: 0 <= i < rows && 0 <= j < columns ==>
        board[i, j] == if (i - row, j - column) in Patterns.GunArrow then 1 else old(board[i, j])
    {
      board[row + 2, column + 20] := 1;
      board[row + 3, column + 20] := 1;
      board[row + 4, column + 20] := 1;
      board[row + 2, column + 21] := 1;
      board[row + 3, column + 21] := 1;
      board[row + 4, column + 21] := 1;
      board[row + 1, column + 22] := 1;
      board[row + 5, column + 22] := 1;
      board[row + 0, column + 24] := 1;
      board[row + 1, column + 24] := 1;
      board[row + 5, column + 24] := 1;
      board[row + 6, column + 24] := 1;
    }

    /** The writes of the gun's right square. */
    method WriteGunRightSquare(row: int, column: int)
      requires Shaped() && Patterns.Fits(rows, columns, row, column, Patterns.GunReach)
      modifies board
      ensures forall i, j :: 0 <= i < rows && 0 <= j < columns ==>
        board[i, j] == if (i - row, j - column) in Patterns.GunRightSquare then 1 else old(board[i, j])
    {
      board[row + 2, column + 34] := 1;
      board[row + 2, column + 35] := 1;
      board[row + 3, column + 34] := 1;
      board[row + 3, column + 35] := 1;
    }

    /**
     * Once the board holds `g` with exactly the cells at offsets `cells`
     * from (row, column) made alive, it holds the stamped grid, and the
     * invariants that held for `g` still hold.
     */
    lemma Stamped(g: Grid, row: int, column: int, cells: set<(int, int)>)
      requires Shaped() && |g| == rows && Rect(g, columns) && Binary(g)
      requires forall i, j :: 0 <= i < rows && 0 <= j < columns ==> nextState[i, j] == 0 || nextState[i, j] == 1
      requires forall i, j :: 0 <= i < rows && 0 <= j < columns ==>
        board[i, j] == if (i - row, j - column) in cells then 1 else g[i][j]
      ensures Valid() && Current() == Patterns.Stamp(g, columns, row, column, cells)
      ensures (forall i, j :: 0 <= i < rows && 0 <= j < columns && g[i][j] == 0 ==> nextState[i, j] == 0) ==>
        Settled()
    {
      var s := Patterns.Stamp(g, columns, row, column, cells);
      SnapshotIs(board, s);
      if forall i, j :: 0 <= i < rows && 0 <= j < columns && g[i][j] == 0 ==> nextState[i, j] == 0 {
        Patterns.StampKeepsInvariants(g, Next(), columns, row, column, cells);
      }
    }

    /** Make the cell at (r, c) alive: the single write of fillByClick and of each stamp step. */
    method SetAlive(r: int, c: int)
      requires Valid() && 0 <= r < rows && 0 <= c < columns
      modifies board
      ensures Valid() && (old(Settled()) ==> Settled())
      ensures Current() == old(Current())[r := old(Current())[r][c := 1]]
    {
      ghost var g := Current();
      board[r, c] := 1;
      SnapshotIs(board, g[r := g[r][c := 1]]);
    }

    /**
     * fillByClick without the redraw: the click at pixel (x, y) makes the
     * cell in row `y / cellSize` and column `x / cellSize` alive.
     */
    method FillByClick(x: nat, y: nat)
      requires Valid() && y / cellSize < rows && x / cellSize < columns
      modifies board
      ensures Valid() && (old(Settled()) ==> Settled())
      ensures Current() == old(Current())[y / cellSize := old(Current())[y / cellSize][x / cellSize := 1]]
    {
      var col := x / cellSize;
      var row := y / cellSize;
      SetAlive(row, col);
    }
  }
}
