/**
 * The board as an object: an 8x8 array of cells updated in place and the
 * colour to move. Every method is proved against the pure rules in module
 * Reversi.
 */
module ReversiBoards {
  import opened Options
  import opened Reversi

  class ReversiBoard {
    /** The cells, indexed [row, col]. */
    const grid: array2<Cell>
    /** Whose turn it is. */
    var turnColor: Color
    /** The board this one was copied from; search and play never consult it. */
    ghost const previousBoard: ReversiBoard?

    ghost predicate Valid() {
      grid.Length0 == GridSize && grid.Length1 == GridSize
    }

    /** The cells as a grid value. */
    ghost function Cells(): (g: Grid)
      requires Valid()
      reads grid
      ensures forall r, c :: InGrid(r, c) ==> g[r][c] == grid[r, c]
    {
      seq(GridSize, r requires 0 <= r < GridSize reads grid =>
        seq(GridSize, c requires 0 <= c < GridSize reads grid => grid[r, c]))
    }

    /** The position this object stands for. */
    ghost function Value(): Board
      requires Valid()
      reads this, grid
    {
      Board(Cells(), turnColor)
    }

    /** The initial board: four tokens in the centre, Black to move. */
    constructor Initial()
      ensures Valid() && fresh(grid)
      ensures Value() == InitialBoard()
      ensures previousBoard == null
    {
      previousBoard := null;
      turnColor := Black;
      grid := new Cell[GridSize, GridSize];
      new;
      var row := 0;
      while row < GridSize
        invariant 0 <= row <= GridSize
        invariant forall r, c :: 0 <= r < row && 0 <= c < GridSize ==> grid[r, c] == Empty
        invariant turnColor == Black && previousBoard == null
      {
        var col := 0;
        while col < GridSize
          invariant 0 <= col <= GridSize
          invariant forall r, c :: 0 <= r < row && 0 <= c < GridSize ==> grid[r, c] == Empty
          invariant forall c :: 0 <= c < col ==> grid[row, c] == Empty
          invariant turnColor == Black && previousBoard == null
        {
          grid[row, col] := Empty;
          col := col + 1;
        }
        row := row + 1;
      }
      grid[3, 3] := Stone(White);
      grid[4, 4] := Stone(White);
      grid[3, 4] := Stone(Black);
      grid[4, 3] := Stone(Black);
      GridExt(Cells(), InitialBoard().grid);
    }

    /** A copy of `previous`, with its own grid and the same turn. */
    constructor Copy(previous: ReversiBoard)
      requires previous.Valid()
      ensures Valid() && fresh(grid)
      ensures Value() == previous.Value()
      ensures previousBoard == previous
    {
      previousBoard := previous;
      turnColor := previous.turnColor;
      grid := new Cell[GridSize, GridSize];
      new;
      var row := 0;
      while row < GridSize
        invariant 0 <= row <= GridSize
        invariant forall r, c :: 0 <= r < row && 0 <= c < GridSize ==> grid[r, c] == previous.grid[r, c]
        invariant turnColor == previous.turnColor
      {
        var col := 0;
        while col < GridSize
          invariant 0 <= col <= GridSize
          invariant forall r, c :: 0 <= r < row && 0 <= c < GridSize ==> grid[r, c] == previous.grid[r, c]
          invariant forall c :: 0 <= c < col ==> grid[row, c] == previous.grid[row, c]
          invariant turnColor == previous.turnColor
        {
          grid[row, col] := previous.grid[row, col];
          col := col + 1;
        }
        row := row + 1;
      }
      GridExt(Cells(), previous.Cells());
    }

    method GetValue(col: int, row: int) returns (v: Cell)
      requires Valid() && InGrid(row, col)
      ensures v == Value().grid[row][col]
    {
      v := grid[row, col];
    }

    method SwapTurn()
      requires Valid()
      modifies this`turnColor
      ensures turnColor == old(turnColor).Opposite()
      ensures Value() == old(Value()).(turn := old(turnColor).Opposite())
    {
      turnColor := turnColor.Opposite();
    }

    /**
     * The number of opponent tokens from (col, row) in the direction
     * (stepCol, stepRow) up to a token of the mover, or 0 when an empty
     * cell or the edge comes first.
     */
    method CountOpponentLineLength(col: int, row: int, stepCol: int, stepRow: int) returns (count: int)
      requires Valid() && InGrid(row, col) && IsStep(stepRow, stepCol)
      ensures count == LineLength(Cells(), turnColor, row, col, stepRow, stepCol)
    {
      ghost var g := Cells();
      var checkedCol, checkedRow := col, row;
      var checkedCell := Empty;
      var opponentLineCount := -1;
      while true
        invariant -1 <= opponentLineCount <= 6
        invariant checkedRow == Along(row, stepRow, opponentLineCount + 1)
        invariant checkedCol == Along(col, stepCol, opponentLineCount + 1)
        invariant LineLength(g, turnColor, row, col, stepRow, stepCol)
               == ScanFrom(g, turnColor, row, col, stepRow, stepCol, opponentLineCount + 2)
        decreases GridSize - opponentLineCount
      {
        opponentLineCount := opponentLineCount + 1;
        checkedCol := checkedCol + stepCol;
        checkedRow := checkedRow + stepRow;
        ghost var i := opponentLineCount + 1;
        assert checkedRow == Along(row, stepRow, i) && checkedCol == Along(col, stepCol, i);
        if !InGrid(checkedRow, checkedCol) {
          // The line ends at the edge of the grid
          assert ScanFrom(g, turnColor, row, col, stepRow, stepCol, i) == 0;
          return 0;
        }
        checkedCell := grid[checkedRow, checkedCol];
        assert checkedCell == g[checkedRow][checkedCol];
        if checkedCell != Stone(turnColor.Opposite()) {
          assert ScanFrom(g, turnColor, row, col, stepRow, stepCol, i)
              == if checkedCell == Stone(turnColor) then opponentLineCount else 0;
          break;
        }
        AlongBound(row, col, stepRow, stepCol, i);
        assert ScanFrom(g, turnColor, row, col, stepRow, stepCol, i)
            == ScanFrom(g, turnColor, row, col, stepRow, stepCol, i + 1);
      }
      count := if checkedCell == Stone(turnColor) then opponentLineCount else 0;
    }

    /** Turns over the `count` tokens that follow (col, row) in direction (stepCol, stepRow). */
    method FlipLine(col: int, row: int, stepCol: int, stepRow: int, count: int)
      requires Valid() && InGrid(row, col) && IsStep(stepRow, stepCol)
      requires RayOccupied(Cells(), row, col, stepRow, stepCol, count)
      modifies grid
      ensures Cells() == FlipRay(old(Cells()), row, col, stepRow, stepCol, count)
    {
      ghost var g := Cells();
      var i := 1;
      while i <= count
        invariant 1 <= i <= if count < 1 then 1 else count + 1
        invariant forall r, c :: InGrid(r, c) ==>
          grid[r, c] == if OnRay(row, col, stepRow, stepCol, i - 1, r, c) then Flip(g[r][c]) else g[r][c]
      {
        var r, c := Along(row, stepRow, i), Along(col, stepCol, i);
        RayIndexAlong(row, col, stepRow, stepCol, i);
        var cell := grid[r, c];
        grid[r, c] := Flip(cell);
        forall r', c' | InGrid(r', c')
          ensures grid[r', c'] == if OnRay(row, col, stepRow, stepCol, i, r', c') then Flip(g[r'][c']) else g[r'][c']
        {
          if (r', c') != (r, c) {
            assert OnRay(row, col, stepRow, stepCol, i, r', c') == OnRay(row, col, stepRow, stepCol, i - 1, r', c');
          }
        }
        i := i + 1;
      }
      GridExt(Cells(), FlipRay(g, row, col, stepRow, stepCol, count));
    }

    /**
     * Turns over the `count` opponent tokens flanked from (col, row) along
     * one direction and puts the mover's token on (col, row).
     */
    method CaptureLine(col: int, row: int, stepCol: int, stepRow: int, count: int)
      requires Valid() && InGrid(row, col) && IsStep(stepRow, stepCol)
      requires 0 < count == LineLength(Cells(), turnColor, row, col, stepRow, stepCol)
      modifies grid
      ensures Cells() == SetCell(FlipRay(old(Cells()), row, col, stepRow, stepCol, count), row, col, Stone(turnColor))
    {
      ghost var before := Cells();
      assert RayOccupied(before, row, col, stepRow, stepCol, count) by {
        LineLengthFlanks(before, turnColor, row, col, stepRow, stepCol);
        forall i | 1 <= i <= count
          ensures InGrid(Along(row, stepRow, i), Along(col, stepCol, i))
          ensures before[Along(row, stepRow, i)][Along(col, stepCol, i)] != Empty
        {
          assert RayCellIs(before, row, col, stepRow, stepCol, i, Stone(turnColor.Opposite()));
        }
      }
      FlipLine(col, row, stepCol, stepRow, count);
      ghost var flipped := Cells();
      grid[row, col] := Stone(turnColor);
      GridExt(Cells(), SetCell(flipped, row, col, Stone(turnColor)));
    }

    /**
     * One round of the direction loop of `PlaceToken`: counts the flanked
     * line in direction `direction` and captures it when there is one.
     */
    method SweepDirection(col: int, row: int, direction: int, ghost g: Grid) returns (flanked: bool)
      requires Valid() && InGrid(row, col) && 0 <= direction < 8
      requires Cells() == Sweep(g, turnColor, row, col, direction)
      modifies grid
      ensures Cells() == Sweep(g, turnColor, row, col, direction + 1)
      ensures LegalUpTo(g, turnColor, row, col, direction + 1) <==> LegalUpTo(g, turnColor, row, col, direction) || flanked
    {
      var stepCol, stepRow := StepsCol[direction], StepsRow[direction];
      SweepRound(g, turnColor, row, col, direction);
      var count := CountOpponentLineLength(col, row, stepCol, stepRow);
      flanked := count > 0;
      if flanked {
        CaptureLine(col, row, stepCol, stepRow, count);
      }
    }

    /**
     * Tries to put a token of the mover on (col, row): for each of the
     * eight directions in turn, a flanked line is turned over and the token
     * is put down. Reports whether any line was flanked; an occupied cell or
     * a move that flanks nothing leaves the grid as it was.
     */
    method PlaceToken(col: int, row: int) returns (validMove: bool)
      requires Valid() && InGrid(row, col)
      modifies grid
      ensures validMove == IsLegal(old(Cells()), turnColor, row, col)
      ensures Cells() == Place(old(Cells()), turnColor, row, col)
    {
      if grid[row, col] != Empty {
        return false;
      }
      ghost var g := Cells();
      validMove := false;
      var direction := 0;
      while direction < 8
        invariant 0 <= direction <= 8
        invariant Cells() == Sweep(g, turnColor, row, col, direction)
        invariant validMove == LegalUpTo(g, turnColor, row, col, direction)
      {
        var flanked := SweepDirection(col, row, direction, g);
        validMove := validMove || flanked;
        direction := direction + 1;
      }
    }

    /**
     * The body of the scan in `GetChildren` for one cell: a copy of this
     * board with the move at (col, row) played, when that cell is empty and
     * the move is legal.
     */
    method ChildAt(col: int, row: int) returns (moves: seq<ReversiBoard>)
      requires Valid() && InGrid(row, col)
      ensures |moves| == |MoveAt(Value(), row, col)|
      ensures forall i :: 0 <= i < |moves| ==>
        && fresh(moves[i]) && fresh(moves[i].grid) && moves[i].Valid()
        && moves[i].Value() == MoveAt(Value(), row, col)[i]
    {
      moves := [];
      if grid[row, col] == Empty {
        var newBoard := new ReversiBoard.Copy(this);
        var validMove := newBoard.PlaceToken(col, row);
        if validMove {
          moves := [newBoard];
        }
      }
    }

    /**
     * The inner loop of `GetChildren`: the successors for the moves on one
     * row, from the leftmost cell to the rightmost.
     */
    method RowChildrenOf(row: int) returns (children: seq<ReversiBoard>)
      requires Valid() && 0 <= row < GridSize
      ensures |children| == |RowChildren(Value(), row, GridSize)|
      ensures forall i :: 0 <= i < |children| ==>
        && fresh(children[i]) && fresh(children[i].grid) && children[i].Valid()
        && children[i].Value() == RowChildren(Value(), row, GridSize)[i]
    {
      ghost var b := Value();
      ghost var values: seq<Board> := [];
      children := [];
      var col := 0;
      while col < GridSize
        invariant 0 <= col <= GridSize
        invariant Value() == b
        invariant values == RowChildren(b, row, col)
        invariant |children| == |values|
        invariant forall i :: 0 <= i < |children| ==>
          && fresh(children[i]) && fresh(children[i].grid) && children[i].Valid()
          && children[i].Value() == values[i]
      {
        var moves := ChildAt(col, row);
        ghost var m := MoveAt(b, row, col);
        forall i | 0 <= i < |children| + |moves|
          ensures && fresh((children + moves)[i]) && fresh((children + moves)[i].grid) && (children + moves)[i].Valid()
                  && (children + moves)[i].Value() == (values + m)[i]
        {
          if i < |children| {
            assert (children + moves)[i] == children[i];
          } else {
            assert (children + moves)[i] == moves[i - |children|];
          }
        }
        children := children + moves;
        values := values + m;
        col := col + 1;
      }
    }

    /**
     * Every legal successor as a new board, in row-major order of the
     * target cell; each child keeps this board's turn.
     */
    method GetChildren() returns (children: seq<ReversiBoard>)
      requires Valid()
      ensures |children| == |Children(Value())|
      ensures forall i :: 0 <= i < |children| ==>
        && fresh(children[i]) && fresh(children[i].grid) && children[i].Valid()
        && children[i].Value() == Children(Value())[i]
    {
      ghost var b := Value();
      ghost var values: seq<Board> := [];
      children := [];
      var row := 0;
      while row < GridSize
        invariant 0 <= row <= GridSize
        invariant Value() == b
        invariant values == RowsChildren(b, row)
        invariant |children| == |values|
        invariant forall i :: 0 <= i < |children| ==>
          && fresh(children[i]) && fresh(children[i].grid) && children[i].Valid()
          && children[i].Value() == values[i]
      {
        var rowChildren := RowChildrenOf(row);
        ghost var m := RowChildren(b, row, GridSize);
        forall i | 0 <= i < |children| + |rowChildren|
          ensures && fresh((children + rowChildren)[i]) && fresh((children + rowChildren)[i].grid)
                  && (children + rowChildren)[i].Valid()
                  && (children + rowChildren)[i].Value() == (values + m)[i]
        {
          if i < |children| {
            assert (children + rowChildren)[i] == children[i];
          } else {
            assert (children + rowChildren)[i] == rowChildren[i - |children|];
          }
        }
        children := children + rowChildren;
        values := values + m;
        row := row + 1;
      }
    }

    /** The colour with more tokens on the grid, or None on a tie. */
    method GetWinner() returns (winner: Option<Color>)
      requires Valid()
      ensures winner == Winner(Cells())
      ensures winner == Some(Black) <==> Tally(Cells(), Stone(Black)) > Tally(Cells(), Stone(White))
      ensures winner == Some(White) <==> Tally(Cells(), Stone(Black)) < Tally(Cells(), Stone(White))
      ensures winner == None <==> Tally(Cells(), Stone(Black)) == Tally(Cells(), Stone(White))
    {
      ghost var g := Cells();
      var black, white, empty := 0, 0, 0;
      var row := 0;
      while row < GridSize
        invariant 0 <= row <= GridSize
        invariant black == Tally(g[..row], Stone(Black))
        invariant white == Tally(g[..row], Stone(White))
        invariant empty == Tally(g[..row], Empty)
      {
        var col := 0;
        while col < GridSize
          invariant 0 <= col <= GridSize
          invariant black == Tally(g[..row], Stone(Black)) + RowTally(g[row][..col], Stone(Black))
          invariant white == Tally(g[..row], Stone(White)) + RowTally(g[row][..col], Stone(White))
          invariant empty == Tally(g[..row], Empty) + RowTally(g[row][..col], Empty)
        {
          assert g[row][..col + 1][..col] == g[row][..col];
          var cell := grid[row, col];
          assert cell == g[row][col];
          assert RowTally(g[row][..col + 1], Empty) == RowTally(g[row][..col], Empty) + if cell == Empty then 1 else 0;
          match cell {
            case Stone(Black) => black := black + 1;
            case Stone(White) => white := white + 1;
            case Empty => empty := empty + 1;
          }
          col := col + 1;
        }
        assert g[row][..GridSize] == g[row];
        assert g[..row + 1][..row] == g[..row];
        row := row + 1;
      }
      assert g[..GridSize] == g;
      if black > white {
        winner := Some(Black);
      } else if black < white {
        winner := Some(White);
      } else {
        winner := None;
      }
    }
  }
}
