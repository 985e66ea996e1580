/** Small configurations whose next generation is known: a still life, an
    oscillator, death by under- and overpopulation, and birth. */
module LifePatterns {
  import opened LifeRules

  datatype Shape =
    | Block        // 4x4, a 2x2 block of live cells in the middle
    | Horizontal   // 5x5, three live cells across the middle row
    | Vertical     // 5x5, three live cells down the middle column
    | Lone         // 3x3, one live cell in the centre
    | CornerCell   // 3x3, one live cell in the top-left corner
    | Dead3        // 3x3, all dead
    | Full         // 3x3, all alive
    | Corners      // 3x3, only the four corners alive
    | Tromino      // 2x2, three live cells, the bottom-right one dead
    | Square       // 2x2, all alive
    | ThreeCorners // 3x3, live cells at the corners (0, 0), (0, 2) and (2, 0)

  function Size(s: Shape): nat
  {
    match s
    case Block => 4
    case Horizontal | Vertical => 5
    case Lone | CornerCell | Dead3 | Full | Corners | ThreeCorners => 3
    case Tromino | Square => 2
  }

  predicate Live(s: Shape, i: int, j: int)
  {
    match s
    case Block => 1 <= i <= 2 && 1 <= j <= 2
    case Horizontal => i == 2 && 1 <= j <= 3
    case Vertical => j == 2 && 1 <= i <= 3
    case Lone => i == 1 && j == 1
    case CornerCell => i == 0 && j == 0
    case Dead3 => false
    case Full => true
    case Corners => i != 1 && j != 1
    case Tromino => i == 0 || j == 0
    case Square => true
    case ThreeCorners => (i == 0 && (j == 0 || j == 2)) || (i == 2 && j == 0)
  }

  /** The square grid of shape s. */
  function Draw(s: Shape): (g: Grid)
    ensures |g| == Size(s) && Rectangular(g) && Cols(g) == Size(s)
    ensures forall i, j :: At(g, i, j) == if 0 <= i < Size(s) && 0 <= j < Size(s) && Live(s, i, j) then 1 else 0
  {
    seq(Size(s), i => seq(Size(s), j => if Live(s, i, j) then 1 else 0))
  }

  /** Cell (i, j) of the next generation of shape s, through the
      eight-position count. */
  lemma StepDrawAt(s: Shape, i: nat, j: nat)
    requires i < Size(s) && j < Size(s)
    ensures |Step(Draw(s))[i]| == Size(s)
    ensures Step(Draw(s))[i][j] == Rule(At(Draw(s), i, j), Ring(Draw(s), i, j))
  {
    NeighborsIsRing(Draw(s), i, j);
    assert Draw(s)[i][j] == At(Draw(s), i, j);
  }

  /** The 2x2 block is a still life: one step leaves it unchanged. */
  lemma BlockIsStill()
    ensures Step(Draw(Block)) == Draw(Block)
  {
    var g, h := Draw(Block), Draw(Block);
    forall i | 0 <= i < 4 ensures Step(g)[i] == h[i] {
      forall j | 0 <= j < 4 ensures Step(g)[i][j] == h[i][j] {
        StepDrawAt(Block, i, j);
        assert h[i][j] == At(h, i, j);
      }
    }
  }

  /** A horizontal blinker turns vertical. */
  lemma HorizontalBecomesVertical()
    ensures Step(Draw(Horizontal)) == Draw(Vertical)
  {
    var g, h := Draw(Horizontal), Draw(Vertical);
    forall i | 0 <= i < 5 ensures Step(g)[i] == h[i] {
      forall j | 0 <= j < 5 ensures Step(g)[i][j] == h[i][j] {
        StepDrawAt(Horizontal, i, j);
        assert h[i][j] == At(h, i, j);
      }
    }
  }

  /** A vertical blinker turns horizontal. */
  lemma VerticalBecomesHorizontal()
    ensures Step(Draw(Vertical)) == Draw(Horizontal)
  {
    var g, h := Draw(Vertical), Draw(Horizontal);
    forall i | 0 <= i < 5 ensures Step(g)[i] == h[i] {
      forall j | 0 <= j < 5 ensures Step(g)[i][j] == h[i][j] {
        StepDrawAt(Vertical, i, j);
        assert h[i][j] == At(h, i, j);
      }
    }
  }

  /** An isolated live cell dies of underpopulation. */
  lemma LoneCellDies()
    ensures Step(Draw(Lone)) == Draw(Dead3)
  {
    var g, h := Draw(Lone), Draw(Dead3);
    forall i | 0 <= i < 3 ensures Step(g)[i] == h[i] {
      forall j | 0 <= j < 3 ensures Step(g)[i][j] == h[i][j] {
        StepDrawAt(Lone, i, j);
        assert h[i][j] == At(h, i, j);
      }
    }
  }

  /** A lone live cell in a corner has no live neighbour and dies. */
  lemma CornerCellDies()
    ensures Step(Draw(CornerCell)) == Draw(Dead3)
  {
    var g, h := Draw(CornerCell), Draw(Dead3);
    forall i | 0 <= i < 3 ensures Step(g)[i] == h[i] {
      forall j | 0 <= j < 3 ensures Step(g)[i][j] == h[i][j] {
        StepDrawAt(CornerCell, i, j);
        assert h[i][j] == At(h, i, j);
      }
    }
  }

  /** Three live corners of a 3x3 grid: each corner counts only its in-bounds
      2x2 block, finds no live neighbour there and dies, while the centre sees
      all three and is born. Counting across the borders instead would give
      (0, 0) the two other corners as neighbours and keep it alive. */
  lemma ThreeCornersLeaveCentre()
    ensures Step(Draw(ThreeCorners)) == Draw(Lone)
  {
    var g, h := Draw(ThreeCorners), Draw(Lone);
    forall i | 0 <= i < 3 ensures Step(g)[i] == h[i] {
      forall j | 0 <= j < 3 ensures Step(g)[i][j] == h[i][j] {
        StepDrawAt(ThreeCorners, i, j);
        assert h[i][j] == At(h, i, j);
      }
    }
  }

  /** In a full 3x3 grid the centre (8 live neighbours) and the edge cells
      (5) die of overpopulation; the corners (3) survive. */
  lemma CrowdedCentreDies()
    ensures Step(Draw(Full)) == Draw(Corners)
  {
    var g, h := Draw(Full), Draw(Corners);
    forall i | 0 <= i < 3 ensures Step(g)[i] == h[i] {
      forall j | 0 <= j < 3 ensures Step(g)[i][j] == h[i][j] {
        StepDrawAt(Full, i, j);
        assert h[i][j] == At(h, i, j);
      }
    }
  }

  /** The dead cell of an L-tromino has 3 live neighbours and is born; the
      live cells have 2 each and survive. */
  lemma TrominoFillsIn()
    ensures Step(Draw(Tromino)) == Draw(Square)
  {
    var g, h := Draw(Tromino), Draw(Square);
    forall i | 0 <= i < 2 ensures Step(g)[i] == h[i] {
      forall j | 0 <= j < 2 ensures Step(g)[i][j] == h[i][j] {
        StepDrawAt(Tromino, i, j);
        assert h[i][j] == At(h, i, j);
      }
    }
  }

  /** The blinker has period 2. */
  lemma BlinkerPeriodTwo()
    ensures Step(Step(Draw(Horizontal))) == Draw(Horizontal)
    ensures Step(Draw(Horizontal)) != Draw(Horizontal)
  {
    HorizontalBecomesVertical();
    VerticalBecomesHorizontal();
    assert Draw(Vertical)[1][2] != Draw(Horizontal)[1][2] by {
      assert Draw(Vertical)[1][2] == At(Draw(Vertical), 1, 2);
      assert Draw(Horizontal)[1][2] == At(Draw(Horizontal), 1, 2);
    }
  }
}
