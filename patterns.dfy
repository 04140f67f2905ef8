/**
 * The two preset patterns the board can stamp (a glider and a glider gun):
 * their live-cell offsets, the bounds check each stamp makes as written,
 * the stricter check under which every write lands on the board, and the
 * stamped grid.
 */
module Patterns {
  import opened Life

  /** Offsets (row, column) from the stamp origin that createGlider sets to 1. */
  const GliderCells: set<(int, int)> := {(1, 0), (2, 1), (2, 2), (1, 2), (0, 2)}

  /** The glider gun's left square: offsets (row, column) from the stamp origin. */
  const GunLeftSquare: set<(int, int)> := {(4, 0), (4, 1), (5, 0), (5, 1)}

  /** The glider gun's middle "almost circle", in two column bands: columns 10 to 12 ... */
  const GunCircleLow: set<(int, int)> := {(4, 10), (5, 10), (6, 10), (3, 11), (7, 11), (2, 12), (8, 12)}

  /** ... and columns 13 to 17. */
  const GunCircleHigh: set<(int, int)> := {
    (2, 13), (8, 13), (5, 14), (3, 15), (4, 16), (5, 16), (6, 16), (7, 15), (5, 17)
  }

  const GunCircle: set<(int, int)> := GunCircleLow + GunCircleHigh

  /** The glider gun's arrow. */
  const GunArrow: set<(int, int)> := {
    (2, 20), (3, 20), (4, 20), (2, 21), (3, 21), (4, 21), (1, 22), (5, 22),
    (0, 24), (1, 24), (5, 24), (6, 24)
  }

  /** The glider gun's right square. */
  const GunRightSquare: set<(int, int)> := {(2, 34), (2, 35), (3, 34), (3, 35)}

  /** Offsets (row, column) from the stamp origin that createGliderGun sets to 1. */
  const GunCells: set<(int, int)> := GunLeftSquare + GunCircle + GunArrow + GunRightSquare

  /** The largest row and column offsets the glider's check adds to the origin. */
  const GliderReach: (int, int) := (2, 2)

  /** The largest row and column offsets the glider gun's check adds to the origin. */
  const GunReach: (int, int) := (8, 35)

  /** (r, c) names a cell of a `rows` x `columns` board. */
  predicate OnBoard(rows: int, columns: int, r: int, c: int)
  {
    0 <= r < rows && 0 <= c < columns
  }

  /**
   * The bounds check as the stamps write it: true means the stamp returns
   * false without writing. `reach` is the pair of offsets added to the
   * origin ((2, 2) for the glider, (8, 35) for the gun).
   */
  predicate Rejected(rows: int, columns: int, row: int, column: int, reach: (int, int))
  {
    row + reach.0 > rows || row < 0 || column + reach.1 > columns || column < 0
  }

  /** The stricter check: the whole footprint from the origin to origin + reach lies on the board. */
  predicate Fits(rows: int, columns: int, row: int, column: int, reach: (int, int))
  {
    0 <= row && row + reach.0 < rows && 0 <= column && column + reach.1 < columns
  }

  /** The grid after setting every cell at an offset in `cells` from (row, column) to 1. */
  function Stamp(g: Grid, columns: nat, row: int, column: int, cells: set<(int, int)>): (r: Grid)
    requires Rect(g, columns)
    ensures |r| == |g| && Rect(r, columns)
  {
    seq(|g|, i requires 0 <= i < |g| =>
      seq(columns, j requires 0 <= j < columns =>
        if (i - row, j - column) in cells then 1 else g[i][j]))
  }

  /** Stamping `a` and then `b` from the same origin is stamping `a + b`. */
  lemma StampTwice(g: Grid, columns: nat, row: int, column: int, a: set<(int, int)>, b: set<(int, int)>)
    requires Rect(g, columns)
    ensures Stamp(Stamp(g, columns, row, column, a), columns, row, column, b) == Stamp(g, columns, row, column, a + b)
  {
    CellwiseEqual(Stamp(Stamp(g, columns, row, column, a), columns, row, column, b),
                  Stamp(g, columns, row, column, a + b), columns);
  }

  /** The glider is five distinct cells inside its 3 x 3 footprint. */
  lemma GliderShape()
    ensures |GliderCells| == 5
    ensures forall p :: p in GliderCells ==> 0 <= p.0 <= GliderReach.0 && 0 <= p.1 <= GliderReach.1
  {
  }

  /** Cells in the column band [low, high] of the footprint. */
  ghost predicate InColumns(cells: set<(int, int)>, low: int, high: int)
  {
    forall p :: p in cells ==> 0 <= p.0 <= GunReach.0 && low <= p.1 <= high
  }

  lemma GunPartSizes()
    ensures |GunLeftSquare| == 4 && |GunRightSquare| == 4
  {
  }

  lemma GunCircleLowShape()
    ensures |GunCircleLow| == 7 && InColumns(GunCircleLow, 10, 12)
  {
  }

  lemma GunCircleHighShape()
    ensures |GunCircleHigh| == 9 && InColumns(GunCircleHigh, 13, 17)
  {
  }

  lemma GunArrowSize()
    ensures |GunArrow| == 12
  {
  }

  lemma GunSideBands()
    ensures InColumns(GunLeftSquare, 0, 1) && InColumns(GunRightSquare, 34, 35)
  {
  }

  lemma GunArrowBand()
    ensures InColumns(GunArrow, 20, 24)
  {
  }

  /** The cardinality of a union of two sets in separate column bands. */
  lemma DisjointBands(a: set<(int, int)>, b: set<(int, int)>, aLow: int, aHigh: int, bLow: int, bHigh: int)
    requires InColumns(a, aLow, aHigh) && InColumns(b, bLow, bHigh) && aLow <= aHigh < bLow <= bHigh
    ensures |a + b| == |a| + |b| && InColumns(a + b, aLow, bHigh)
  {
    assert a * b == {} by {
      forall p | p in a ensures p !in b { }
    }
    assert |a + b| + |a * b| == |a| + |b|;
    forall p | p in a + b
      ensures 0 <= p.0 <= GunReach.0 && aLow <= p.1 <= bHigh
    {
      if p in a { } else { assert p in b; }
    }
  }

  /** The glider gun is 36 distinct cells inside its 9 x 36 footprint. */
  lemma GunShape()
    ensures |GunCells| == 36
    ensures forall p :: p in GunCells ==> 0 <= p.0 <= GunReach.0 && 0 <= p.1 <= GunReach.1
  {
    GunPartSizes();
    GunSideBands();
    GunCircleLowShape();
    GunCircleHighShape();
    GunArrowSize();
    GunArrowBand();
    DisjointBands(GunCircleLow, GunCircleHigh, 10, 12, 13, 17);
    DisjointBands(GunLeftSquare, GunCircle, 0, 1, 10, 17);
    DisjointBands(GunLeftSquare + GunCircle, GunArrow, 0, 17, 20, 24);
    DisjointBands(GunLeftSquare + GunCircle + GunArrow, GunRightSquare, 0, 24, 34, 35);
  }

  /** Every glider cell lands on the board exactly when the strict check passes. */
  lemma GliderFitsIff(rows: int, columns: int, row: int, column: int)
    ensures Fits(rows, columns, row, column, GliderReach) <==>
      forall p :: p in GliderCells ==> OnBoard(rows, columns, row + p.0, column + p.1)
  {
    GliderShape();
    if forall p :: p in GliderCells ==> OnBoard(rows, columns, row + p.0, column + p.1) {
      assert OnBoard(rows, columns, row + 0, column + 2);   // offset (0, 2)
      assert OnBoard(rows, columns, row + 1, column + 0);   // offset (1, 0)
      assert OnBoard(rows, columns, row + 2, column + 2);   // offset (2, 2)
    }
  }

  /** Every glider-gun cell lands on the board exactly when the strict check passes. */
  lemma GunFitsIff(rows: int, columns: int, row: int, column: int)
    ensures Fits(rows, columns, row, column, GunReach) <==>
      forall p :: p in GunCells ==> OnBoard(rows, columns, row + p.0, column + p.1)
  {
    GunShape();
    if forall p :: p in GunCells ==> OnBoard(rows, columns, row + p.0, column + p.1) {
      assert (0, 24) in GunArrow && (4, 0) in GunLeftSquare;
      assert (8, 12) in GunCircleLow && (2, 35) in GunRightSquare;
      assert OnBoard(rows, columns, row + 0, column + 24);
      assert OnBoard(rows, columns, row + 4, column + 0);
      assert OnBoard(rows, columns, row + 8, column + 12);
      assert OnBoard(rows, columns, row + 2, column + 35);
    }
  }

  /**
   * The strict check only admits origins the check as written admits; the
   * two differ exactly on origins whose footprint ends on row `rows` or
   * column `columns`, one past the board.
   */
  lemma GuardGap(rows: int, columns: int, row: int, column: int, reach: (int, int))
    ensures Fits(rows, columns, row, column, reach) ==> !Rejected(rows, columns, row, column, reach)
    ensures !Rejected(rows, columns, row, column, reach) && !Fits(rows, columns, row, column, reach) <==>
      0 <= row && 0 <= column && row + reach.0 <= rows && column + reach.1 <= columns &&
      (row + reach.0 == rows || column + reach.1 == columns)
  {
  }

  /**
   * The glider check as written admits origin (1, 1) on a 3 x 3 board, whose
   * offsets (2, 1), written second, and (2, 2) are off the board.
   */
  lemma GliderGuardAdmitsOverflow()
    ensures !Rejected(3, 3, 1, 1, GliderReach)
    ensures (2, 1) in GliderCells && !OnBoard(3, 3, 1 + 2, 1 + 1)
    ensures (2, 2) in GliderCells && !OnBoard(3, 3, 1 + 2, 1 + 2)
  {
  }

  /** The gun check as written admits origin (0, 0) on an 8 x 36 board, whose offset (8, 12) is off the board. */
  lemma GunGuardAdmitsOverflow()
    ensures !Rejected(8, 36, 0, 0, GunReach)
    ensures (8, 12) in GunCells && !OnBoard(8, 36, 0 + 8, 0 + 12)
  {
  }

  /**
   * Stamping only turns cells alive: it keeps every cell 0 or 1 and keeps
   * "dead in the board implies dead in the next state".
   */
  lemma StampKeepsInvariants(g: Grid, next: Grid, columns: nat, row: int, column: int, cells: set<(int, int)>)
    requires Rect(g, columns) && Rect(next, columns) && |next| == |g|
    requires Binary(g) && DeadImpliesDead(g, next, columns)
    ensures Binary(Stamp(g, columns, row, column, cells))
    ensures DeadImpliesDead(Stamp(g, columns, row, column, cells), next, columns)
  {
  }
}
