/** update_board on a two-dimensional array: copy the board, then overwrite
    the copy cell by cell, reading every count and every current state from
    the original board. */
module AppUtil {
  import opened LifeRules

  /** The generation an array holds, as a grid value. */
  ghost function ToGrid(a: array2<int>): (g: Grid)
    reads a
    ensures |g| == a.Length0 && Rectangular(g)
    ensures a.Length0 > 0 ==> Cols(g) == a.Length1
    ensures forall i :: 0 <= i < |g| ==> |g[i]| == a.Length1
    ensures forall i, j :: 0 <= i < a.Length0 && 0 <= j < a.Length1 ==> g[i][j] == a[i, j]
  {
    seq(a.Length0, i requires 0 <= i < a.Length0 reads a =>
      seq(a.Length1, j requires 0 <= j < a.Length1 reads a => a[i, j]))
  }

  /** Sum of board[i, c0..c1]. */
  function RowSliceSum(board: array2<int>, i: nat, c0: nat, c1: nat): (s: int)
    reads board
    requires i < board.Length0 && c0 <= c1 <= board.Length1
    ensures s == RowSum(ToGrid(board)[i], c0, c1)
    decreases c1 - c0
  {
    if c0 == c1 then 0 else RowSliceSum(board, i, c0, c1 - 1) + board[i, c1 - 1]
  }

  /** Sum of the slice board[r0..r1, c0..c1]. */
  function SliceSum(board: array2<int>, r0: nat, r1: nat, c0: nat, c1: nat): (s: int)
    reads board
    requires 0 < board.Length0
    requires r0 <= r1 <= board.Length0 && c0 <= c1 <= board.Length1
    ensures s == WindowSum(ToGrid(board), r0, r1, c0, c1)
    decreases r1 - r0
  {
    if r0 == r1 then 0 else SliceSum(board, r0, r1 - 1, c0, c1) + RowSliceSum(board, r1 - 1, c0, c1)
  }

  /** count_neighbors: the clipped 3x3 slice of the board around (r, c),
      summed, minus the centre. */
  function CountNeighbors(board: array2<int>, r: nat, c: nat): (n: int)
    reads board
    requires r < board.Length0 && c < board.Length1
    ensures n == Neighbors(ToGrid(board), r, c)
  {
    var rows, cols := board.Length0, board.Length1;
    SliceSum(board, Max(0, r - 1), Min(rows, r + 2), Max(0, c - 1), Min(cols, c + 2)) - board[r, c]
  }

  /** An array whose cells match a grid of its shape holds that grid. */
  lemma ToGridIs(a: array2<int>, h: Grid)
    requires |h| == a.Length0 && forall i :: 0 <= i < |h| ==> |h[i]| == a.Length1
    requires forall i, j :: 0 <= i < a.Length0 && 0 <= j < a.Length1 ==> a[i, j] == h[i][j]
    ensures ToGrid(a) == h
  {
    forall i | 0 <= i < |h| ensures ToGrid(a)[i] == h[i] {
    }
  }

  /** One generation of the board. The result is a fresh array of the same
      shape holding the next state of every cell; the board itself is not
      modified. */
  method UpdateBoard(board: array2<int>) returns (newBoard: array2<int>)
    ensures fresh(newBoard)
    ensures ToGrid(board) == old(ToGrid(board))
    ensures newBoard.Length0 == board.Length0 && newBoard.Length1 == board.Length1
    ensures forall i, j :: 0 <= i < board.Length0 && 0 <= j < board.Length1 ==>
              newBoard[i, j] == NextCell(ToGrid(board), i, j)
    ensures ToGrid(newBoard) == Step(ToGrid(board)) && Binary(ToGrid(newBoard))
  {
    var rows, cols := board.Length0, board.Length1;
    // the copy that is overwritten cell by cell
    newBoard := new int[rows, cols]((i, j) requires 0 <= i < rows && 0 <= j < cols reads board => board[i, j]);
    ghost var g := ToGrid(board);
    var r := 0;
    while r < rows
      invariant 0 <= r <= rows
      invariant forall i, j :: 0 <= i < r && 0 <= j < cols ==> newBoard[i, j] == NextCell(g, i, j)
      invariant forall i, j :: r <= i < rows && 0 <= j < cols ==> newBoard[i, j] == board[i, j]
    {
      var c := 0;
      while c < cols
        invariant 0 <= c <= cols
        invariant forall i, j :: 0 <= i < rows && 0 <= j < cols && (i < r || (i == r && j < c)) ==>
                    newBoard[i, j] == NextCell(g, i, j)
        invariant forall i, j :: 0 <= i < rows && 0 <= j < cols && (i > r || (i == r && j >= c)) ==>
                    newBoard[i, j] == board[i, j]
      {
        var liveNeighbors := CountNeighbors(board, r, c);
        label before:
        if board[r, c] == 1 {
          // live cell: dies of under- or overpopulation, otherwise survives
          if liveNeighbors < 2 || liveNeighbors > 3 {
            newBoard[r, c] := 0;
          } else {
            newBoard[r, c] := 1;
          }
        } else {
          // dead cell: born with exactly three live neighbours
          if liveNeighbors == 3 {
            newBoard[r, c] := 1;
          } else {
            newBoard[r, c] := 0;
          }
        }
        assert newBoard[r, c] == NextCell(g, r, c);
        // only (r, c) was written
        assert forall i, j :: 0 <= i < rows && 0 <= j < cols && (i != r || j != c) ==>
          newBoard[i, j] == old@before(newBoard[i, j]);
        c := c + 1;
      }
      r := r + 1;
    }
    ToGridIs(newBoard, Step(g));
  }
}
