/**
 * The search player: the piece-differential heuristic, the Binkley
 * positional-weight heuristic (without its Gaussian noise term), and a player
 * that chooses its move by alpha-beta search over the children of a board.
 */
module MinimaxPlayers {
  import opened Options
  import opened Reversi
  import opened ReversiFacts
  import opened Search

  // ---------------------------------------------------------------------
  // Weighted cell sums

  /** An 8x8 table of integer weights, one per cell. */
  predicate IsTable(w: seq<seq<int>>) {
    |w| == GridSize && forall r :: 0 <= r < GridSize ==> |w[r]| == GridSize
  }

  /** What one cell adds to a weighted sum from the point of view of `turn`. */
  function CellScore(x: Cell, turn: Color, weight: int): int {
    if x == Stone(turn) then weight
    else if x == Stone(turn.Opposite()) then -weight
    else 0
  }

  function RowScore(s: seq<Cell>, w: seq<int>, turn: Color): int
    requires |w| == |s|
  {
    if s == [] then 0
    else RowScore(s[..|s| - 1], w[..|s| - 1], turn) + CellScore(s[|s| - 1], turn, w[|s| - 1])
  }

  /** The weights of `turn`'s cells minus the weights of the opponent's cells. */
  function GridScore(g: seq<seq<Cell>>, w: seq<seq<int>>, turn: Color): int
    requires |w| == |g| && forall r :: 0 <= r < |g| ==> |w[r]| == |g[r]|
  {
    if g == [] then 0
    else GridScore(g[..|g| - 1], w[..|g| - 1], turn) + RowScore(g[|g| - 1], w[|g| - 1], turn)
  }

  /** The weight of every cell in the naive heuristic. */
  const OnesRow: seq<int> := [1, 1, 1, 1, 1, 1, 1, 1]
  const Ones: seq<seq<int>> := [OnesRow, OnesRow, OnesRow, OnesRow, OnesRow, OnesRow, OnesRow, OnesRow]

  /** Binkley's table of strategic cell values: corners high, cells next to corners negative. */
  const Weights: seq<seq<int>> := [
    [100, -25, 10, 5, 5, 10, -25, 100],
    [-25, -25, 2, 2, 2, 2, -25, -25],
    [10, 2, 5, 1, 1, 5, 2, 10],
    [5, 2, 1, 2, 2, 1, 2, 5],
    [5, 2, 1, 2, 2, 1, 2, 5],
    [10, 2, 5, 1, 1, 5, 2, 10],
    [-25, -25, 2, 2, 2, 2, -25, -25],
    [100, -25, 10, 5, 5, 10, -25, 100]
  ]

  /** The naive heuristic of a board, for the colour whose turn it is. */
  function Simple(b: Board): int {
    GridScore(b.grid, Ones, b.turn)
  }

  /** The Binkley heuristic of a board, for the colour whose turn it is, without noise. */
  function Binkley(b: Board): int {
    GridScore(b.grid, Weights, b.turn)
  }

  // ---------------------------------------------------------------------
  // The heuristics as loops

  /** Sums the weights of the cells of `b`, + for the side to move and - for the other side. */
  method WeightedSum(b: Board, w: seq<seq<int>>) returns (result: int)
    requires IsTable(w)
    ensures result == GridScore(b.grid, w, b.turn)
  {
    var g := b.grid;
    result := 0;
    for row := 0 to GridSize
      invariant result == GridScore(g[..row], w[..row], b.turn)
    {
      for col := 0 to GridSize
        invariant result == GridScore(g[..row], w[..row], b.turn) + RowScore(g[row][..col], w[row][..col], b.turn)
      {
        if g[row][col] == Stone(b.turn) {
          result := result + w[row][col];
        } else if g[row][col] == Stone(b.turn.Opposite()) {
          result := result - w[row][col];
        }
        assert g[row][..col + 1][..col] == g[row][..col];
        assert w[row][..col + 1][..col] == w[row][..col];
      }
      assert g[row][..GridSize] == g[row] && w[row][..GridSize] == w[row];
      assert g[..row + 1][..row] == g[..row] && w[..row + 1][..row] == w[..row];
    }
    assert g[..GridSize] == g && w[..GridSize] == w;
  }

  /**
   * The naive heuristic: the tokens of the side to move minus those of the
   * other side, which lies between -64 and 64.
   */
  method SimpleHeuristic(b: Board) returns (count: int)
    ensures count == Tally(b.grid, Stone(b.turn)) - Tally(b.grid, Stone(b.turn.Opposite()))
    ensures -64 <= count <= 64
  {
    count := WeightedSum(b, Ones);
    SimpleIsDifference(b);
  }

  /** The Binkley heuristic without noise. */
  method BinkleyHeuristic(b: Board) returns (result: int)
    ensures result == Binkley(b)
  {
    result := WeightedSum(b, Weights);
  }

  // ---------------------------------------------------------------------
  // Properties of the heuristics

  lemma {:induction false} RowScoreOnes(s: seq<Cell>, w: seq<int>, turn: Color)
    requires |w| == |s| && forall i :: 0 <= i < |w| ==> w[i] == 1
    ensures RowScore(s, w, turn) == RowTally(s, Stone(turn)) - RowTally(s, Stone(turn.Opposite()))
    decreases |s|
  {
    if s != [] {
      RowScoreOnes(s[..|s| - 1], w[..|s| - 1], turn);
    }
  }

  lemma {:induction false} GridScoreOnes(g: seq<seq<Cell>>, w: seq<seq<int>>, turn: Color)
    requires |w| == |g| && forall r :: 0 <= r < |g| ==> |w[r]| == |g[r]|
    requires forall r, c :: 0 <= r < |w| && 0 <= c < |w[r]| ==> w[r][c] == 1
    ensures GridScore(g, w, turn) == Tally(g, Stone(turn)) - Tally(g, Stone(turn.Opposite()))
    decreases |g|
  {
    if g != [] {
      GridScoreOnes(g[..|g| - 1], w[..|g| - 1], turn);
      RowScoreOnes(g[|g| - 1], w[|g| - 1], turn);
    }
  }

  /** The naive heuristic is the token differential, between -64 and 64. */
  lemma SimpleIsDifference(b: Board)
    ensures Simple(b) == Tally(b.grid, Stone(b.turn)) - Tally(b.grid, Stone(b.turn.Opposite()))
    ensures -64 <= Simple(b) <= 64
  {
    GridScoreOnes(b.grid, Ones, b.turn);
    TallySum(b.grid);
  }

  lemma {:induction false} RowScoreSwap(s: seq<Cell>, w: seq<int>, turn: Color)
    requires |w| == |s|
    ensures RowScore(s, w, turn.Opposite()) == -RowScore(s, w, turn)
    decreases |s|
  {
    if s != [] {
      RowScoreSwap(s[..|s| - 1], w[..|s| - 1], turn);
    }
  }

  lemma {:induction false} GridScoreSwap(g: seq<seq<Cell>>, w: seq<seq<int>>, turn: Color)
    requires |w| == |g| && forall r :: 0 <= r < |g| ==> |w[r]| == |g[r]|
    ensures GridScore(g, w, turn.Opposite()) == -GridScore(g, w, turn)
    decreases |g|
  {
    if g != [] {
      GridScoreSwap(g[..|g| - 1], w[..|g| - 1], turn);
      RowScoreSwap(g[|g| - 1], w[|g| - 1], turn);
    }
  }

  /** Handing the turn to the other side negates both heuristics. */
  lemma SwapNegates(b: Board)
    ensures Simple(Board(b.grid, b.turn.Opposite())) == -Simple(b)
    ensures Binkley(Board(b.grid, b.turn.Opposite())) == -Binkley(b)
  {
    GridScoreSwap(b.grid, Ones, b.turn);
    GridScoreSwap(b.grid, Weights, b.turn);
  }

  /** Binkley's table is unchanged by reversing the rows, reversing the columns, or transposing. */
  lemma WeightsSymmetric()
    ensures IsTable(Weights)
    ensures forall r, c :: InGrid(r, c) ==>
      && Weights[r][c] == Weights[7 - r][c]
      && Weights[r][c] == Weights[r][7 - c]
      && Weights[r][c] == Weights[c][r]
  {
    forall r, c | InGrid(r, c)
      ensures Weights[r][c] == Weights[7 - r][c] && Weights[r][c] == Weights[r][7 - c] && Weights[r][c] == Weights[c][r]
    {
      assert Weights[r] == Weights[7 - r];
    }
  }

  /** Each of Black's four opening moves leaves Black three tokens ahead: 4 to 1. */
  lemma InitialChildrenSimple()
    ensures forall x :: x in Children(InitialBoard()) ==> Simple(x) == 3
  {
    var b := InitialBoard();
    InitialChildren();
    InitialTally();
    forall x | x in Children(b)
      ensures Simple(x) == 3
    {
      ChildrenAreMoves(b);
      var r, c :| IsMove(b, x, r, c);
      InitialLegal(r, c);
      InitialCaptures(r, c);
      MoveTally(b.grid, Black, r, c);
      SimpleIsDifference(x);
    }
  }

  // ---------------------------------------------------------------------
  // The player

  /** `x` is `root` or a board reached from it by at most `depth` successive children. */
  ghost predicate InSearchTree(root: Board, x: Board, depth: nat)
    decreases depth
  {
    x == root || (depth > 0 && exists c :: c in Children(root) && InSearchTree(c, x, depth - 1))
  }

  /**
   * Children keep the parent's turn, so every board the search visits has the
   * root's side to move, and every heuristic value in the tree is from that
   * side's point of view.
   */
  lemma {:induction false} SearchTreeKeepsTurn(root: Board, x: Board, depth: nat)
    requires InSearchTree(root, x, depth)
    ensures x.turn == root.turn
    decreases depth
  {
    if x != root {
      var c :| c in Children(root) && InSearchTree(c, x, depth - 1);
      ChildrenAreMoves(root);
      SearchTreeKeepsTurn(c, x, depth - 1);
    }
  }

  /** A player that looks `plyDepth` moves ahead with alpha-beta search. */
  class MinimaxPlayer {
    const plyDepth: nat

    constructor(plyDepth: nat)
      ensures this.plyDepth == plyDepth
    {
      this.plyDepth := plyDepth;
    }

    /**
     * The move chosen by alpha-beta search from the full window with Binkley's
     * heuristic: the one plain minimax chooses. There is none exactly when the
     * depth is 0 or the board has no children; otherwise it is a child of the
     * board, whose turn is not handed over.
     */
    method PlayTurn(board: Board) returns (result: Option<Board>)
      ensures result == MinimaxResult(Children, Binkley, board, plyDepth, true).node
      ensures result.None? <==> plyDepth == 0 || |Children(board)| == 0
      ensures result.Some? ==> result.value in Children(board) && result.value.turn == board.turn
    {
      var searched := AlphaBeta(Children, Binkley, board, plyDepth, NegInf, PosInf, true);
      AlphaBetaIsMinimax(Children, Binkley, board, plyDepth, true);
      MinimaxShape(Children, Binkley, board, plyDepth, true);
      if searched.node.Some? {
        MinimaxIsFirstBest(Children, Binkley, board, plyDepth, true);
        ChildrenAreMoves(board);
      }
      result := searched.node;
    }

    /** The search player does not learn: the end of a game changes nothing. */
    method OnGameOver(board: Board, ourColor: Color) {
    }
  }
}
