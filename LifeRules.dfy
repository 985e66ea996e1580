/** Value-level model of one generation of Conway's Game of Life (rule B3/S23)
    on a finite grid that does not wrap around at its borders. */
module LifeRules {

  /** A generation: a list of rows of cells. A cell holding 1 is alive;
      any other value reads as dead. */
  type Grid = seq<seq<int>>

  /** Number of columns, taken from the first row. */
  function Cols(g: Grid): nat
  {
    if |g| == 0 then 0 else |g[0]|
  }

  /** Every row has the same length. */
  predicate Rectangular(g: Grid)
  {
    forall i :: 0 <= i < |g| ==> |g[i]| == Cols(g)
  }

  /** A rectangular grid whose every cell is 0 or 1. */
  predicate Binary(g: Grid)
  {
    Rectangular(g) &&
    forall i, j :: 0 <= i < |g| && 0 <= j < |g[i]| ==> g[i][j] == 0 || g[i][j] == 1
  }

  function Max(a: int, b: int): int
  {
    if a < b then b else a
  }

  function Min(a: int, b: int): int
  {
    if a < b then a else b
  }

  /** Sum of the slice row[lo..hi]. */
  function RowSum(row: seq<int>, lo: int, hi: int): int
    requires 0 <= lo <= hi <= |row|
    decreases hi - lo
  {
    if lo == hi then 0 else RowSum(row, lo, hi - 1) + row[hi - 1]
  }

  /** Sum of the block of rows r0..r1 and columns c0..c1 (both half-open). */
  function WindowSum(g: Grid, r0: int, r1: int, c0: int, c1: int): int
    requires Rectangular(g)
    requires 0 <= r0 <= r1 <= |g| && 0 <= c0 <= c1 <= Cols(g)
    decreases r1 - r0
  {
    if r0 == r1 then 0 else WindowSum(g, r0, r1 - 1, c0, c1) + RowSum(g[r1 - 1], c0, c1)
  }

  /** Live-neighbour count of (r, c): the 3x3 block around the cell, clipped
      to the grid, summed, minus the cell itself. */
  function Neighbors(g: Grid, r: nat, c: nat): int
    requires Rectangular(g) && r < |g| && c < Cols(g)
  {
    WindowSum(g, Max(0, r - 1), Min(|g|, r + 2), Max(0, c - 1), Min(Cols(g), c + 2)) - g[r][c]
  }

  /** The cell at column j of a row, or 0 outside the row. */
  function RowAt(row: seq<int>, j: int): int
  {
    if 0 <= j < |row| then row[j] else 0
  }

  /** The cell at (i, j), or 0 outside the grid: positions past a border
      contribute nothing, they are not read from the opposite border. */
  function At(g: Grid, i: int, j: int): int
  {
    if 0 <= i < |g| then RowAt(g[i], j) else 0
  }

  /** Reference definition of the neighbour count: the eight surrounding
      positions, each read with At. */
  function Ring(g: Grid, r: int, c: int): int
  {
    At(g, r - 1, c - 1) + At(g, r - 1, c) + At(g, r - 1, c + 1) +
    At(g, r, c - 1) + At(g, r, c + 1) +
    At(g, r + 1, c - 1) + At(g, r + 1, c) + At(g, r + 1, c + 1)
  }

  /** The transition rule: the next state of a cell from its current value
      and its live-neighbour count. Only the value 1 counts as alive. */
  function Rule(cell: int, n: int): (next: int)
    ensures next == 0 || next == 1
    ensures next == 1 <==> n == 3 || (cell == 1 && n == 2)
  {
    if cell == 1 then
      if n < 2 || n > 3 then 0 else 1
    else
      if n == 3 then 1 else 0
  }

  /** Next state of cell (r, c); every input is read from g. */
  function NextCell(g: Grid, r: nat, c: nat): int
    requires Rectangular(g) && r < |g| && c < Cols(g)
  {
    Rule(g[r][c], Neighbors(g, r, c))
  }

  /** One generation: NextCell at every position of g. */
  function Step(g: Grid): (h: Grid)
    requires Rectangular(g)
    ensures |h| == |g| && Rectangular(h) && Cols(h) == Cols(g)
    ensures Binary(h)
  {
    seq(|g|, i requires 0 <= i < |g| =>
      seq(Cols(g), j requires 0 <= j < Cols(g) => NextCell(g, i, j)))
  }

  // ---------------------------------------------------------------------
  // The clipped slice sum agrees with the eight-position reference.

  /** The clipped three-cell slice of a row around column c. */
  lemma {:induction false} RowSumAround(row: seq<int>, c: int)
    requires 0 <= c < |row|
    ensures RowSum(row, Max(0, c - 1), Min(|row|, c + 2))
            == RowAt(row, c - 1) + row[c] + RowAt(row, c + 1)
  {
    var lo, hi := Max(0, c - 1), Min(|row|, c + 2);
    if c + 1 < |row| {
      assert RowSum(row, lo, hi) == RowSum(row, lo, c + 1) + row[c + 1];
    } else {
      assert hi == c + 1 && RowAt(row, c + 1) == 0;
    }
    assert RowSum(row, lo, c + 1) == RowSum(row, lo, c) + row[c];
    if 0 < c {
      assert RowSum(row, lo, c) == RowSum(row, lo, c - 1) + row[c - 1];
    } else {
      assert RowAt(row, c - 1) == 0;
    }
  }

  /** Contribution of row i to a window over columns c0..c1, or 0 outside the grid. */
  function RowPart(g: Grid, i: int, c0: int, c1: int): int
    requires Rectangular(g) && 0 <= c0 <= c1 <= Cols(g)
  {
    if 0 <= i < |g| then RowSum(g[i], c0, c1) else 0
  }

  /** The clipped three-row window around row r. */
  lemma {:induction false} WindowSumAround(g: Grid, r: int, c0: int, c1: int)
    requires Rectangular(g) && 0 <= r < |g| && 0 <= c0 <= c1 <= Cols(g)
    ensures WindowSum(g, Max(0, r - 1), Min(|g|, r + 2), c0, c1)
            == RowPart(g, r - 1, c0, c1) + RowPart(g, r, c0, c1) + RowPart(g, r + 1, c0, c1)
  {
    var lo, hi := Max(0, r - 1), Min(|g|, r + 2);
    if r + 1 < |g| {
      assert WindowSum(g, lo, hi, c0, c1) == WindowSum(g, lo, r + 1, c0, c1) + RowSum(g[r + 1], c0, c1);
    } else {
      assert hi == r + 1 && RowPart(g, r + 1, c0, c1) == 0;
    }
    assert WindowSum(g, lo, r + 1, c0, c1) == WindowSum(g, lo, r, c0, c1) + RowSum(g[r], c0, c1);
    if 0 < r {
      assert WindowSum(g, lo, r, c0, c1) == WindowSum(g, lo, r - 1, c0, c1) + RowSum(g[r - 1], c0, c1);
    } else {
      assert RowPart(g, r - 1, c0, c1) == 0;
    }
  }

  /** The row part of the neighbour window, written with At. */
  lemma RowPartAround(g: Grid, i: int, c: nat)
    requires Rectangular(g) && c < Cols(g)
    ensures RowPart(g, i, Max(0, c - 1), Min(Cols(g), c + 2))
            == At(g, i, c - 1) + At(g, i, c) + At(g, i, c + 1)
  {
    if 0 <= i < |g| {
      RowSumAround(g[i], c);
    }
  }

  /** The clipped window sum minus the centre equals the sum over the eight
      surrounding positions, out-of-grid positions counting 0. */
  lemma NeighborsIsRing(g: Grid, r: nat, c: nat)
    requires Rectangular(g) && r < |g| && c < Cols(g)
    ensures Neighbors(g, r, c) == Ring(g, r, c)
  {
    var c0, c1 := Max(0, c - 1), Min(Cols(g), c + 2);
    WindowSumAround(g, r, c0, c1);
    RowPartAround(g, r - 1, c);
    RowPartAround(g, r, c);
    RowPartAround(g, r + 1, c);
  }

  // ---------------------------------------------------------------------
  // Bounds on the neighbour count.

  /** On a 0/1 grid the count lies in 0..8, and in 0..3 at a corner. */
  lemma NeighborsBounds(g: Grid, r: nat, c: nat)
    requires Binary(g) && r < |g| && c < Cols(g)
    ensures 0 <= Neighbors(g, r, c) <= 8
    ensures (r == 0 || r == |g| - 1) && (c == 0 || c == Cols(g) - 1) ==> Neighbors(g, r, c) <= 3
  {
    NeighborsIsRing(g, r, c);
    forall i: int, j: int ensures 0 <= At(g, i, j) <= 1 {
      if 0 <= i < |g| && 0 <= j < |g[i]| {
        assert g[i][j] == 0 || g[i][j] == 1;
      }
    }
  }

  /** At the corner (0, 0) the count is read from the in-bounds 2x2 block
      only, never from the opposite borders. */
  lemma CornerNeighbors(g: Grid)
    requires Rectangular(g) && |g| >= 2 && Cols(g) >= 2
    ensures Neighbors(g, 0, 0) == g[0][1] + g[1][0] + g[1][1]
  {
  }

  /** The next state of (r, c) depends only on the cells within one row and
      one column of it: two grids of the same shape that agree there agree
      on the next state. */
  lemma NextCellIsLocal(g: Grid, h: Grid, r: nat, c: nat)
    requires Rectangular(g) && Rectangular(h) && |g| == |h| && Cols(g) == Cols(h)
    requires r < |g| && c < Cols(g)
    requires forall i, j :: r - 1 <= i <= r + 1 && c - 1 <= j <= c + 1 ==> At(g, i, j) == At(h, i, j)
    ensures NextCell(g, r, c) == NextCell(h, r, c)
  {
    NeighborsIsRing(g, r, c);
    NeighborsIsRing(h, r, c);
    assert g[r][c] == At(g, r, c) == At(h, r, c) == h[r][c];
    assert At(g, r - 1, c - 1) == At(h, r - 1, c - 1);
    assert At(g, r - 1, c) == At(h, r - 1, c);
    assert At(g, r - 1, c + 1) == At(h, r - 1, c + 1);
    assert At(g, r, c - 1) == At(h, r, c - 1);
    assert At(g, r, c + 1) == At(h, r, c + 1);
    assert At(g, r + 1, c - 1) == At(h, r + 1, c - 1);
    assert At(g, r + 1, c) == At(h, r + 1, c);
    assert At(g, r + 1, c + 1) == At(h, r + 1, c + 1);
  }

  // ---------------------------------------------------------------------
  // The four cases of the rule, per cell of a generation.

  /** Survival, death by under- or overpopulation, and birth, for cell (r, c). */
  lemma StepCell(g: Grid, r: nat, c: nat)
    requires Rectangular(g) && r < |g| && c < Cols(g)
    ensures g[r][c] == 1 && (Neighbors(g, r, c) < 2 || Neighbors(g, r, c) > 3) ==> Step(g)[r][c] == 0
    ensures g[r][c] == 1 && 2 <= Neighbors(g, r, c) <= 3 ==> Step(g)[r][c] == 1
    ensures g[r][c] != 1 ==> (Step(g)[r][c] == 1 <==> Neighbors(g, r, c) == 3)
  {
  }

  // ---------------------------------------------------------------------
  // Degenerate shapes.

  /** A 1x1 grid has no neighbours, so its cell is dead afterwards. */
  lemma SingleCellDies(x: int)
    ensures Step([[x]]) == [[0]]
  {
    var g := [[x]];
    assert Neighbors(g, 0, 0) == 0 by {
      assert WindowSum(g, 0, 1, 0, 1) == RowSum(g[0], 0, 1) == x;
    }
    assert Step(g)[0] == [NextCell(g, 0, 0)];
  }

  /** A grid with no rows or no columns comes back unchanged. */
  lemma EmptyGridUnchanged(g: Grid)
    requires Rectangular(g) && (|g| == 0 || Cols(g) == 0)
    ensures Step(g) == g
  {
  }
}
