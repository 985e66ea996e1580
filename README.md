# Conway's Game of Life: one generation

This project models `update_board` from `apputil.py`. The function computes one generation of Conway's Game of Life (rule B3/S23) on a finite rectangular board that does not wrap around. A cell holding 1 is alive. The function copies the board, then visits every `(r, c)` in nested loops. For each cell it sums the 3x3 slice around it, clipped at the borders, and subtracts the centre to get the live-neighbour count (`count_neighbors`). It then overwrites the copy's cell with the next state. Every count and every current state is read from the original board, so cells already written cannot affect later ones.

The model has three modules:

- `LifeRules` (LifeRules.dfy) is the value-level meaning. A board is a `Grid`, that is `seq<seq<int>>`. `RowSum` and `WindowSum` give the clipped slice sum, and `Neighbors` is that sum minus the centre. `Rule` is the four-case transition, `NextCell` applies it to one cell, and `Step` applies it to the whole grid. `Ring` is an independent reference count over the eight surrounding positions, where positions outside the grid count 0. The lemmas connect the two counts, bound the count, show that the next state depends only on the cell's own 3x3 neighbourhood, and cover the degenerate shapes.
- `AppUtil` (AppUtil.dfy) is `update_board` itself, written imperatively over an `array2<int>`. The copy is a freshly allocated array initialised from the board. It is overwritten in two nested `while` loops whose invariants say which cells already hold their next state and which still hold the copied value. `count_neighbors` is the function `CountNeighbors`, built from slice sums over the array. The method is proved to return a fresh array that holds `Step` of the input, without modifying the input.
- `LifePatterns` (LifePatterns.dfy) proves the outcome for small known configurations: the block still life, the period-2 blinker, a lone cell, a lone corner cell, three live corners, a full 3x3 grid and an L-tromino.

Two behaviours of the code are kept as written:

- The code does not reject a non-binary board. Its count sums the raw cell values, and only the value 1 counts as alive when the rule is applied. The model does the same, so `UpdateBoard` has no precondition. The properties that need a 0/1 board, such as the bound on the count, require `Binary`.
- The code has no error path, and neither does the model.

## Model

| member | source | states |
|---|---|---|
| LifeRules.Rule | apputil.py:35-46 | The next state is always 0 or 1. It is 1 exactly when the count is 3, or when the cell is alive and the count is 2 (B3/S23). Only the value 1 counts as alive. |
| LifeRules.StepCell | apputil.py:35-46 | For each cell of a generation: a live cell with fewer than 2 or more than 3 live neighbours is dead next, a live cell with 2 or 3 stays alive, and a dead cell is born exactly when it has 3. |
| LifeRules.Step | apputil.py:20-46 | The next generation has the same number of rows and columns as the input, and every cell of it is 0 or 1. |
| LifeRules.RowSumAround | apputil.py:26-27 | The clipped column slice `max(0,c-1):min(cols,c+2)` of a row sums exactly the in-range cells among columns c-1, c and c+1. |
| LifeRules.WindowSumAround | apputil.py:26-27 | The clipped row slice `max(0,r-1):min(rows,r+2)` sums exactly the in-range rows among r-1, r and r+1. |
| LifeRules.NeighborsIsRing | apputil.py:24-28 | The clipped 3x3 slice sum minus the centre equals the sum over the eight surrounding positions, where positions outside the grid count 0 and nothing wraps around. |
| LifeRules.NeighborsBounds | apputil.py:24-28 | On a 0/1 grid the neighbour count lies in 0..8, and in 0..3 at any of the four corners. |
| LifeRules.CornerNeighbors | apputil.py:26-28 | At the corner (0, 0) the count is the sum of the other three cells of the in-bounds 2x2 block. |
| LifeRules.NextCellIsLocal | apputil.py:24-46 | Two grids of the same shape that agree on the 3x3 neighbourhood of (r, c) give (r, c) the same next state, so no cell beyond the border window is read. |
| LifeRules.SingleCellDies | apputil.py:26-28 | A 1x1 grid has count 0, so its cell is dead after one step, whatever it held. |
| LifeRules.EmptyGridUnchanged | apputil.py:20-32 | A grid with no rows, or with rows of no columns, is returned unchanged. |
| AppUtil.RowSliceSum | apputil.py:26-27 | Summing one row of the board array over columns c0..c1 gives the value-level `RowSum` of that row. |
| AppUtil.SliceSum | apputil.py:26-27 | Summing the board array over rows r0..r1 and columns c0..c1 gives the value-level `WindowSum`. |
| AppUtil.CountNeighbors | apputil.py:24-28 | `count_neighbors(r, c)`, read from the board array, equals `Neighbors` of the board's grid at (r, c). |
| AppUtil.UpdateBoard | apputil.py:8-48 | The result is a fresh array with the board's dimensions. Each of its cells holds `NextCell` of the original board, so the whole array is `Step` of the board and every cell is 0 or 1. The board is unchanged. |
| LifePatterns.BlockIsStill | apputil.py:31-46 | A 2x2 block of live cells in a 4x4 grid is unchanged by one step. |
| LifePatterns.HorizontalBecomesVertical | apputil.py:31-46 | A horizontal three-cell line in the middle of a 5x5 grid becomes a vertical line. |
| LifePatterns.VerticalBecomesHorizontal | apputil.py:31-46 | A vertical three-cell line in the middle of a 5x5 grid becomes a horizontal line. |
| LifePatterns.BlinkerPeriodTwo | apputil.py:31-46 | The blinker changes after one step and returns after two. |
| LifePatterns.LoneCellDies | apputil.py:35-38 | A single live cell with no live neighbours dies, leaving the grid all dead. |
| LifePatterns.CornerCellDies | apputil.py:35-38 | A lone live cell at corner (0, 0) of a 3x3 grid dies, and no dead cell is born. |
| LifePatterns.ThreeCornersLeaveCentre | apputil.py:24-46 | Live corners (0, 0), (0, 2) and (2, 0) of a 3x3 grid all die and only the centre is born. A count that wrapped to the opposite border would keep (0, 0) alive, so this outcome shows the window is clipped. |
| LifePatterns.CrowdedCentreDies | apputil.py:35-40 | In a full 3x3 grid the centre (8 neighbours) and the edge cells (5) die, and the corners (3) survive. |
| LifePatterns.TrominoFillsIn | apputil.py:39-44 | In an L-tromino the dead cell with 3 live neighbours is born and the live cells with 2 survive, giving a full 2x2 block. |

## Left out

- `show_game` (apputil.py:51-77) is not modelled. It clears the notebook output, draws a heatmap with a title, and sleeps between frames. These are display and timing calls, and the only logic in the function is calling `update_board` once per frame.
- The `pause` parameter and the wall-clock sleep are not modelled.
- NumPy details are not modelled: dtype preservation by `.copy()`, and slice semantics beyond the clipped window sum. An `array2<int>` is always two-dimensional and rectangular. Ragged input therefore cannot arise, and the `ValueError` that `rows, cols = board.shape` (apputil.py:21) raises for an array that is not 2-D is a dropped error path.
- CountNeighbors: cell values are unbounded integers. For huge non-binary values a fixed-width NumPy sum could overflow, and the model does not reproduce that.
- Determinism and purity need no lemma. Dafny functions are deterministic, and `UpdateBoard` has no `modifies` clause, so it cannot change the board.
