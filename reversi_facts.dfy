/**
 * Facts about the Reversi rules: how a move changes the token tallies, which
 * boards the children list holds, and what the start position allows.
 */
module ReversiFacts {
  import opened Reversi

  // ---------------------------------------------------------------------
  // Tallies under a single-cell update

  function Indicator(b: bool): int {
    if b then 1 else 0
  }

  lemma {:induction false} RowTallyUpdate(s: seq<Cell>, c: int, x: Cell, v: Cell)
    requires 0 <= c < |s|
    ensures RowTally(s[c := x], v) == RowTally(s, v) - Indicator(s[c] == v) + Indicator(x == v)
    decreases |s|
  {
    var t := s[c := x];
    if c == |s| - 1 {
      assert t[..|t| - 1] == s[..|s| - 1];
    } else {
      assert t[..|t| - 1] == s[..|s| - 1][c := x];
      RowTallyUpdate(s[..|s| - 1], c, x, v);
    }
  }

  lemma {:induction false} TallyUpdate(g: seq<seq<Cell>>, r: int, c: int, x: Cell, v: Cell)
    requires 0 <= r < |g| && 0 <= c < |g[r]|
    ensures Tally(g[r := g[r][c := x]], v) == Tally(g, v) - Indicator(g[r][c] == v) + Indicator(x == v)
    decreases |g|
  {
    var h := g[r := g[r][c := x]];
    if r == |g| - 1 {
      assert h[..|h| - 1] == g[..|g| - 1];
      RowTallyUpdate(g[r], c, x, v);
    } else {
      assert h[..|h| - 1] == g[..|g| - 1][r := g[r][c := x]];
      TallyUpdate(g[..|g| - 1], r, c, x, v);
    }
  }

  /** Setting one cell moves it from the tally of its old content to that of the new one. */
  lemma SetCellTally(g: Grid, row: int, col: int, x: Cell, v: Cell)
    requires InGrid(row, col)
    ensures Tally(SetCell(g, row, col, x), v) == Tally(g, v) - Indicator(g[row][col] == v) + Indicator(x == v)
  {
    TallyUpdate(g, row, col, x, v);
  }

  lemma {:induction false} RowTallySum(s: seq<Cell>)
    ensures RowTally(s, Stone(Black)) + RowTally(s, Stone(White)) + RowTally(s, Empty) == |s|
    decreases |s|
  {
    if s != [] {
      RowTallySum(s[..|s| - 1]);
      match s[|s| - 1]
      case Empty =>
      case Stone(Black) =>
      case Stone(White) =>
    }
  }

  lemma {:induction false} TallySumRows(g: seq<seq<Cell>>)
    requires forall r :: 0 <= r < |g| ==> |g[r]| == GridSize
    ensures Tally(g, Stone(Black)) + Tally(g, Stone(White)) + Tally(g, Empty) == GridSize * |g|
    decreases |g|
  {
    if g != [] {
      TallySumRows(g[..|g| - 1]);
      RowTallySum(g[|g| - 1]);
    }
  }

  /** Every one of the 64 cells is black, white or empty. */
  lemma TallySum(g: Grid)
    ensures Tally(g, Stone(Black)) + Tally(g, Stone(White)) + Tally(g, Empty) == 64
  {
    TallySumRows(g);
  }

  // ---------------------------------------------------------------------
  // Turning a line over

  /** Turning over the first k cells of a ray is turning over the first k - 1, then the k-th. */
  lemma FlipRayStep(p: Grid, row: int, col: int, dr: int, dc: int, k: int)
    requires IsStep(dr, dc) && k >= 1 && InGrid(Along(row, dr, k), Along(col, dc, k))
    ensures FlipRay(p, row, col, dr, dc, k) ==
      SetCell(FlipRay(p, row, col, dr, dc, k - 1), Along(row, dr, k), Along(col, dc, k),
              Flip(p[Along(row, dr, k)][Along(col, dc, k)]))
  {
    var r0, c0 := Along(row, dr, k), Along(col, dc, k);
    var a := FlipRay(p, row, col, dr, dc, k);
    var b := SetCell(FlipRay(p, row, col, dr, dc, k - 1), r0, c0, Flip(p[r0][c0]));
    RayIndexAlong(row, col, dr, dc, k);
    forall r, c | InGrid(r, c) ensures a[r][c] == b[r][c] {
      if (r, c) != (r0, c0) {
        assert OnRay(row, col, dr, dc, k, r, c) <==> OnRay(row, col, dr, dc, k - 1, r, c);
      }
    }
    GridExt(a, b);
  }

  lemma FlipRayNone(p: Grid, row: int, col: int, dr: int, dc: int)
    ensures FlipRay(p, row, col, dr, dc, 0) == p
  {
    var a := FlipRay(p, row, col, dr, dc, 0);
    forall r, c | InGrid(r, c) ensures a[r][c] == p[r][c] {
      assert !OnRay(row, col, dr, dc, 0, r, c);
    }
    GridExt(a, p);
  }

  /**
   * Turning over k opponent tokens on a ray moves k tokens from the
   * opponent's tally to the mover's and leaves the empty cells alone.
   */
  lemma {:induction false} FlipTally(p: Grid, turn: Color, row: int, col: int, dr: int, dc: int, k: nat)
    requires IsStep(dr, dc)
    requires forall i :: 1 <= i <= k ==> RayCellIs(p, row, col, dr, dc, i, Stone(turn.Opposite()))
    ensures var f := FlipRay(p, row, col, dr, dc, k);
      && Tally(f, Stone(turn)) == Tally(p, Stone(turn)) + k
      && Tally(f, Stone(turn.Opposite())) == Tally(p, Stone(turn.Opposite())) - k
      && Tally(f, Empty) == Tally(p, Empty)
  {
    if k == 0 {
      FlipRayNone(p, row, col, dr, dc);
    } else {
      FlipTally(p, turn, row, col, dr, dc, k - 1);
      var r0, c0 := Along(row, dr, k), Along(col, dc, k);
      assert RayCellIs(p, row, col, dr, dc, k, Stone(turn.Opposite()));
      FlipRayStep(p, row, col, dr, dc, k);
      var f' := FlipRay(p, row, col, dr, dc, k - 1);
      RayIndexAlong(row, col, dr, dc, k);
      assert !OnRay(row, col, dr, dc, k - 1, r0, c0);
      assert f'[r0][c0] == Stone(turn.Opposite());
      assert Flip(p[r0][c0]) == Stone(turn);
      SetCellTally(f', r0, c0, Stone(turn), Stone(turn));
      SetCellTally(f', r0, c0, Stone(turn), Stone(turn.Opposite()));
      SetCellTally(f', r0, c0, Stone(turn), Empty);
    }
  }

  // ---------------------------------------------------------------------
  // Tallies after a move

  /** The number of opponent tokens a move at (row, col) turns over in the first n directions. */
  function Captures(g: Grid, turn: Color, row: int, col: int, n: int): nat
    requires InGrid(row, col) && 0 <= n <= 8
  {
    if n == 0 then 0
    else
      StepsAreSteps(n - 1);
      Captures(g, turn, row, col, n - 1) + LineLength(g, turn, row, col, StepsRow[n - 1], StepsCol[n - 1])
  }

  /**
   * Capturing a line of k tokens from (row, col), when (row, col) is empty or
   * already the mover's: the line changes sides and the cell becomes the mover's.
   */
  lemma CaptureTally(p: Grid, turn: Color, row: int, col: int, dr: int, dc: int, k: int)
    requires InGrid(row, col) && IsStep(dr, dc)
    requires 0 < k == LineLength(p, turn, row, col, dr, dc)
    requires p[row][col] == Empty || p[row][col] == Stone(turn)
    ensures var q := SetCell(FlipRay(p, row, col, dr, dc, k), row, col, Stone(turn));
      var e := Indicator(p[row][col] == Empty);
      && Tally(q, Stone(turn)) == Tally(p, Stone(turn)) + k + e
      && Tally(q, Stone(turn.Opposite())) == Tally(p, Stone(turn.Opposite())) - k
      && Tally(q, Empty) == Tally(p, Empty) - e
  {
    LineLengthFlanks(p, turn, row, col, dr, dc);
    FlipTally(p, turn, row, col, dr, dc, k);
    var f := FlipRay(p, row, col, dr, dc, k);
    assert RayIndex(row, col, dr, dc, row, col) == 0;
    assert f[row][col] == p[row][col];
    SetCellTally(f, row, col, Stone(turn), Stone(turn));
    SetCellTally(f, row, col, Stone(turn), Stone(turn.Opposite()));
    SetCellTally(f, row, col, Stone(turn), Empty);
  }

  lemma {:induction false} SweepTally(g: Grid, turn: Color, row: int, col: int, n: int)
    requires InGrid(row, col) && 0 <= n <= 8 && g[row][col] == Empty
    ensures var s := Sweep(g, turn, row, col, n);
      var legal := LegalUpTo(g, turn, row, col, n);
      var f := Captures(g, turn, row, col, n);
      && s[row][col] == (if legal then Stone(turn) else Empty)
      && (f > 0 <==> legal)
      && Tally(s, Stone(turn)) == Tally(g, Stone(turn)) + Indicator(legal) + f
      && Tally(s, Stone(turn.Opposite())) == Tally(g, Stone(turn.Opposite())) - f
      && Tally(s, Empty) == Tally(g, Empty) - Indicator(legal)
  {
    if n > 0 {
      SweepTally(g, turn, row, col, n - 1);
      SweepRound(g, turn, row, col, n - 1);
      var dr, dc := StepsRow[n - 1], StepsCol[n - 1];
      var p := Sweep(g, turn, row, col, n - 1);
      var k := LineLength(p, turn, row, col, dr, dc);
      if k > 0 {
        CaptureTally(p, turn, row, col, dr, dc, k);
      }
    }
  }

  /**
   * A legal move turns over f >= 1 opponent tokens: the mover gains 1 + f
   * tokens, the opponent loses f, and one empty cell fewer remains.
   */
  lemma MoveTally(g: Grid, turn: Color, row: int, col: int)
    requires InGrid(row, col) && IsLegal(g, turn, row, col)
    ensures var p := Place(g, turn, row, col);
      var f := Captures(g, turn, row, col, 8);
      && f >= 1
      && Tally(p, Stone(turn)) == Tally(g, Stone(turn)) + 1 + f
      && Tally(p, Stone(turn.Opposite())) == Tally(g, Stone(turn.Opposite())) - f
      && Tally(p, Empty) == Tally(g, Empty) - 1
  {
    SweepTally(g, turn, row, col, 8);
  }

  // ---------------------------------------------------------------------
  // The children list

  /** `x` is the board a legal move of `b` at (row, col) leads to. */
  predicate IsMove(b: Board, x: Board, row: int, col: int) {
    InGrid(row, col) && IsLegal(b.grid, b.turn, row, col) && x == Board(Place(b.grid, b.turn, row, col), b.turn)
  }

  lemma {:induction false} RowChildrenMoves(b: Board, row: int, col: int)
    requires 0 <= row < GridSize && 0 <= col <= GridSize
    ensures forall x :: x in RowChildren(b, row, col) <==> exists c :: 0 <= c < col && IsMove(b, x, row, c)
  {
    if col > 0 {
      RowChildrenMoves(b, row, col - 1);
      forall x | x in RowChildren(b, row, col)
        ensures exists c :: 0 <= c < col && IsMove(b, x, row, c)
      {
        if x !in RowChildren(b, row, col - 1) {
          assert IsMove(b, x, row, col - 1);
        }
      }
      forall x, c | 0 <= c < col && IsMove(b, x, row, c)
        ensures x in RowChildren(b, row, col)
      {
        if c < col - 1 {
          assert x in RowChildren(b, row, col - 1);
        } else {
          assert MoveAt(b, row, c) == [x];
        }
      }
    }
  }

  lemma {:induction false} RowsChildrenMoves(b: Board, row: int)
    requires 0 <= row <= GridSize
    ensures forall x :: x in RowsChildren(b, row) <==> exists r, c :: 0 <= r < row && 0 <= c < GridSize && IsMove(b, x, r, c)
  {
    if row > 0 {
      RowsChildrenMoves(b, row - 1);
      RowChildrenMoves(b, row - 1, GridSize);
      forall x | x in RowsChildren(b, row)
        ensures exists r, c :: 0 <= r < row && 0 <= c < GridSize && IsMove(b, x, r, c)
      {
        if x !in RowsChildren(b, row - 1) {
          var c :| 0 <= c < GridSize && IsMove(b, x, row - 1, c);
        }
      }
      forall x, r, c | 0 <= r < row && 0 <= c < GridSize && IsMove(b, x, r, c)
        ensures x in RowsChildren(b, row)
      {
        if r < row - 1 {
          assert x in RowsChildren(b, row - 1);
        } else {
          assert x in RowChildren(b, row - 1, GridSize);
        }
      }
    }
  }

  /**
   * The children of a board are exactly the boards its legal moves lead
   * to; each keeps the parent's turn.
   */
  lemma ChildrenAreMoves(b: Board)
    ensures forall x :: x in Children(b) <==> exists r, c :: IsMove(b, x, r, c)
    ensures forall x :: x in Children(b) ==> x.turn == b.turn
  {
    RowsChildrenMoves(b, GridSize);
  }

  // ---------------------------------------------------------------------
  // One child per legal cell

  /** The cells among (row, 0) .. (row, col - 1) where `keep` holds, left to right. */
  function RowCells(keep: (int, int) -> bool, row: int, col: int): seq<(int, int)>
    requires 0 <= col
  {
    if col == 0 then []
    else RowCells(keep, row, col - 1) + if keep(row, col - 1) then [(row, col - 1)] else []
  }

  /** The cells of the rows 0 .. row - 1 where `keep` holds, row by row. */
  function RowsCells(keep: (int, int) -> bool, row: int): seq<(int, int)>
    requires 0 <= row
  {
    if row == 0 then [] else RowsCells(keep, row - 1) + RowCells(keep, row - 1, GridSize)
  }

  /** Whether the side to move has a legal move at (r, c). */
  function LegalAt(b: Board): (int, int) -> bool {
    (r: int, c: int) => InGrid(r, c) && IsLegal(b.grid, b.turn, r, c)
  }

  /** Every cell where the side to move has a legal move, in row-major order. */
  function LegalCells(b: Board): seq<(int, int)> {
    RowsCells(LegalAt(b), GridSize)
  }

  /** Cell p comes before cell q in row-major order. */
  predicate Before(p: (int, int), q: (int, int)) {
    p.0 < q.0 || (p.0 == q.0 && p.1 < q.1)
  }

  lemma {:induction false} RowCellsOrdered(keep: (int, int) -> bool, row: int, col: int)
    requires 0 <= col
    ensures var cells := RowCells(keep, row, col);
      && (forall i :: 0 <= i < |cells| ==> cells[i].0 == row && 0 <= cells[i].1 < col)
      && (forall i, j :: 0 <= i < j < |cells| ==> cells[i].1 < cells[j].1)
      && (forall c :: 0 <= c < col ==> ((row, c) in cells <==> keep(row, c)))
  {
    if col > 0 {
      RowCellsOrdered(keep, row, col - 1);
    }
  }

  lemma {:induction false} RowsCellsOrdered(keep: (int, int) -> bool, row: int)
    requires 0 <= row
    ensures var cells := RowsCells(keep, row);
      && (forall i :: 0 <= i < |cells| ==> 0 <= cells[i].0 < row && 0 <= cells[i].1 < GridSize)
      && (forall i, j :: 0 <= i < j < |cells| ==> Before(cells[i], cells[j]))
      && (forall r, c :: 0 <= r < row && 0 <= c < GridSize ==> ((r, c) in cells <==> keep(r, c)))
  {
    if row > 0 {
      RowsCellsOrdered(keep, row - 1);
      RowCellsOrdered(keep, row - 1, GridSize);
      var cells, last := RowsCells(keep, row - 1), RowCells(keep, row - 1, GridSize);
      assert RowsCells(keep, row) == cells + last;
      forall r, c | 0 <= r < row && 0 <= c < GridSize
        ensures (r, c) in cells + last <==> keep(r, c)
      {
        if r < row - 1 {
          assert (r, c) !in last;
        } else {
          assert (r, c) !in cells;
        }
      }
    }
  }

  /** A cell is among the legal cells exactly when the side to move has a legal move there. */
  lemma LegalCellsExactly(b: Board, r: int, c: int)
    requires InGrid(r, c)
    ensures (r, c) in LegalCells(b) <==> IsLegal(b.grid, b.turn, r, c)
  {
    RowsCellsOrdered(LegalAt(b), GridSize);
    assert LegalAt(b)(r, c) == IsLegal(b.grid, b.turn, r, c);
  }

  /**
   * The legal cells are listed in row-major order, and a cell is listed
   * exactly when the side to move has a legal move there.
   */
  lemma LegalCellsOrdered(b: Board)
    ensures forall i :: 0 <= i < |LegalCells(b)| ==> InGrid(LegalCells(b)[i].0, LegalCells(b)[i].1)
    ensures forall i, j :: 0 <= i < j < |LegalCells(b)| ==> Before(LegalCells(b)[i], LegalCells(b)[j])
    ensures forall r, c :: InGrid(r, c) ==> ((r, c) in LegalCells(b) <==> IsLegal(b.grid, b.turn, r, c))
  {
    RowsCellsOrdered(LegalAt(b), GridSize);
    forall r, c | InGrid(r, c)
      ensures (r, c) in LegalCells(b) <==> IsLegal(b.grid, b.turn, r, c)
    {
      LegalCellsExactly(b, r, c);
    }
  }

  /** The board a move at cell p leads to; `b` itself for a cell off the board. */
  function MoveBoard(b: Board, p: (int, int)): Board {
    if InGrid(p.0, p.1) then Board(Place(b.grid, b.turn, p.0, p.1), b.turn) else b
  }

  /** The boards that moves at `cells` lead to, in the same order. */
  function MovesOf(b: Board, cells: seq<(int, int)>): (xs: seq<Board>)
    ensures |xs| == |cells|
  {
    if cells == [] then [] else MovesOf(b, cells[..|cells| - 1]) + [MoveBoard(b, cells[|cells| - 1])]
  }

  lemma {:induction false} MovesOfAt(b: Board, cells: seq<(int, int)>)
    ensures forall i :: 0 <= i < |cells| ==> MovesOf(b, cells)[i] == MoveBoard(b, cells[i])
  {
    if cells != [] {
      MovesOfAt(b, cells[..|cells| - 1]);
    }
  }

  lemma {:induction false} MovesOfAppend(b: Board, cells: seq<(int, int)>, more: seq<(int, int)>)
    ensures MovesOf(b, cells + more) == MovesOf(b, cells) + MovesOf(b, more)
    decreases |more|
  {
    if more != [] {
      var init := more[..|more| - 1];
      assert (cells + more)[..|cells + more| - 1] == cells + init;
      MovesOfAppend(b, cells, init);
    } else {
      assert cells + more == cells;
    }
  }

  /** The move at (row, col) is the move list of the cell when it is legal, and empty otherwise. */
  lemma MoveAtIsMovesOf(b: Board, row: int, col: int)
    requires 0 <= row < GridSize && 0 <= col < GridSize
    ensures MoveAt(b, row, col) == MovesOf(b, if LegalAt(b)(row, col) then [(row, col)] else [])
  {
    if IsLegal(b.grid, b.turn, row, col) {
      assert [(row, col)][..0] == [];
    }
  }

  lemma {:induction false} RowChildrenFollow(b: Board, row: int, col: int)
    requires 0 <= row < GridSize && 0 <= col <= GridSize
    ensures RowChildren(b, row, col) == MovesOf(b, RowCells(LegalAt(b), row, col))
  {
    if col > 0 {
      RowChildrenFollow(b, row, col - 1);
      MoveAtIsMovesOf(b, row, col - 1);
      MovesOfAppend(b, RowCells(LegalAt(b), row, col - 1), if LegalAt(b)(row, col - 1) then [(row, col - 1)] else []);
    }
  }

  lemma {:induction false} RowsChildrenFollow(b: Board, row: int)
    requires 0 <= row <= GridSize
    ensures RowsChildren(b, row) == MovesOf(b, RowsCells(LegalAt(b), row))
  {
    if row > 0 {
      RowsChildrenFollow(b, row - 1);
      RowChildrenFollow(b, row - 1, GridSize);
      MovesOfAppend(b, RowsCells(LegalAt(b), row - 1), RowCells(LegalAt(b), row - 1, GridSize));
    }
  }

  /**
   * The children list has one child per legal cell, in row-major order:
   * child i is the board after the move at the i-th legal cell.
   */
  lemma ChildrenFollowLegalCells(b: Board)
    ensures |Children(b)| == |LegalCells(b)|
    ensures forall i :: 0 <= i < |Children(b)| ==> Children(b)[i] == MoveBoard(b, LegalCells(b)[i])
  {
    RowsChildrenFollow(b, GridSize);
    MovesOfAt(b, LegalCells(b));
  }

  /** A cell a move turns over held an opponent's token before the move. */
  lemma CapturedIsOpponent(g: Grid, turn: Color, row: int, col: int, r: int, c: int)
    requires InGrid(row, col) && InGrid(r, c)
    ensures CapturedUpTo(g, turn, row, col, 8, r, c) ==> g[r][c] == Stone(turn.Opposite())
  {
    if CapturedUpTo(g, turn, row, col, 8, r, c) {
      var d :| 0 <= d < 8 && IsStep(StepsRow[d], StepsCol[d])
        && OnRay(row, col, StepsRow[d], StepsCol[d], LineLength(g, turn, row, col, StepsRow[d], StepsCol[d]), r, c);
      var dr, dc := StepsRow[d], StepsCol[d];
      LineLengthFlanks(g, turn, row, col, dr, dc);
      var i := RayIndex(row, col, dr, dc, r, c);
      assert RayCellIs(g, row, col, dr, dc, i, Stone(turn.Opposite()));
    }
  }

  /** Legal moves at two different cells lead to different grids: each leaves the other's cell empty. */
  lemma MovesDiffer(g: Grid, turn: Color, r1: int, c1: int, r2: int, c2: int)
    requires InGrid(r1, c1) && InGrid(r2, c2) && (r1, c1) != (r2, c2)
    requires IsLegal(g, turn, r1, c1) && IsLegal(g, turn, r2, c2)
    ensures Place(g, turn, r1, c1) != Place(g, turn, r2, c2)
  {
    PlaceEffect(g, turn, r1, c1);
    PlaceEffect(g, turn, r2, c2);
    CapturedIsOpponent(g, turn, r2, c2, r1, c1);
    assert Place(g, turn, r2, c2)[r1][c1] == Empty;
    assert Place(g, turn, r1, c1)[r1][c1] == Stone(turn);
  }

  /** No two children are equal: the list has exactly as many entries as there are legal cells. */
  lemma ChildrenDistinct(b: Board)
    ensures |Children(b)| == |LegalCells(b)|
    ensures forall i, j :: 0 <= i < j < |Children(b)| ==> Children(b)[i] != Children(b)[j]
  {
    var cells := LegalCells(b);
    ChildrenFollowLegalCells(b);
    LegalCellsOrdered(b);
    forall i, j | 0 <= i < j < |Children(b)|
      ensures Children(b)[i] != Children(b)[j]
    {
      var p, q := cells[i], cells[j];
      assert p in cells && q in cells && Before(p, q);
      MovesDiffer(b.grid, b.turn, p.0, p.1, q.0, q.1);
    }
  }

  // ---------------------------------------------------------------------
  // The start position

  lemma RowTallyPrefix(s: seq<Cell>, i: int, v: Cell)
    requires 0 < i <= |s|
    ensures RowTally(s[..i], v) == RowTally(s[..i - 1], v) + Indicator(s[i - 1] == v)
  {
    assert s[..i][..i - 1] == s[..i - 1];
  }

  /** A row's tally written out cell by cell. */
  lemma RowTallyCells(s: seq<Cell>, v: Cell)
    requires |s| == GridSize
    ensures RowTally(s, v) ==
      Indicator(s[0] == v) + Indicator(s[1] == v) + Indicator(s[2] == v) + Indicator(s[3] == v) +
      Indicator(s[4] == v) + Indicator(s[5] == v) + Indicator(s[6] == v) + Indicator(s[7] == v)
  {
    assert s[..0] == [];
    RowTallyPrefix(s, 1, v);
    RowTallyPrefix(s, 2, v);
    RowTallyPrefix(s, 3, v);
    RowTallyPrefix(s, 4, v);
    RowTallyPrefix(s, 5, v);
    RowTallyPrefix(s, 6, v);
    RowTallyPrefix(s, 7, v);
    RowTallyPrefix(s, 8, v);
    assert s[..8] == s;
  }

  lemma TallyPrefix(g: seq<seq<Cell>>, i: int, v: Cell)
    requires 0 < i <= |g|
    ensures Tally(g[..i], v) == Tally(g[..i - 1], v) + RowTally(g[i - 1], v)
  {
    assert g[..i][..i - 1] == g[..i - 1];
  }

  /** A grid's tally written out row by row. */
  lemma TallyRows(g: Grid, v: Cell)
    ensures Tally(g, v) ==
      RowTally(g[0], v) + RowTally(g[1], v) + RowTally(g[2], v) + RowTally(g[3], v) +
      RowTally(g[4], v) + RowTally(g[5], v) + RowTally(g[6], v) + RowTally(g[7], v)
  {
    assert g[..0] == [];
    TallyPrefix(g, 1, v);
    TallyPrefix(g, 2, v);
    TallyPrefix(g, 3, v);
    TallyPrefix(g, 4, v);
    TallyPrefix(g, 5, v);
    TallyPrefix(g, 6, v);
    TallyPrefix(g, 7, v);
    TallyPrefix(g, 8, v);
    assert g[..8] == g;
  }

  lemma InitialRowTally(r: int, v: Cell)
    requires 0 <= r < GridSize
    ensures RowTally(InitialBoard().grid[r], v) ==
      if r == 3 || r == 4 then Indicator(v == Empty) * 6 + Indicator(v != Empty)
      else Indicator(v == Empty) * 8
  {
    var s := InitialBoard().grid[r];
    RowTallyCells(s, v);
    assert forall c :: 0 <= c < GridSize ==> s[c] == InitialCell(r, c);
    match v
    case Empty =>
    case Stone(Black) =>
    case Stone(White) =>
  }

  /** The start position holds two black tokens, two white ones and 60 empty cells. */
  lemma InitialTally()
    ensures Tally(InitialBoard().grid, Stone(Black)) == 2
    ensures Tally(InitialBoard().grid, Stone(White)) == 2
    ensures Tally(InitialBoard().grid, Empty) == 60
  {
    var g := InitialBoard().grid;
    forall v | v in [Stone(Black), Stone(White), Empty]
      ensures Tally(g, v) == if v == Empty then 60 else 2
    {
      TallyRows(g, v);
      InitialRowTally(0, v);
      InitialRowTally(1, v);
      InitialRowTally(2, v);
      InitialRowTally(3, v);
      InitialRowTally(4, v);
      InitialRowTally(5, v);
      InitialRowTally(6, v);
      InitialRowTally(7, v);
    }
  }

  /** The cells where Black can open the game. */
  predicate OpeningCell(row: int, col: int) {
    (row, col) == (2, 3) || (row, col) == (3, 2) || (row, col) == (4, 5) || (row, col) == (5, 4)
  }

  /** The one direction in which an opening move flanks a line: S, E, W and N respectively. */
  function OpeningDirection(row: int, col: int): int {
    if (row, col) == (2, 3) then 2
    else if (row, col) == (3, 2) then 0
    else if (row, col) == (4, 5) then 4
    else 6
  }

  /** The first cells of a flanked line: the opponent's, up to the closing token. */
  lemma FlankedPrefix(g: Grid, turn: Color, row: int, col: int, dr: int, dc: int, k: int)
    requires Flanks(g, turn, row, col, dr, dc, k)
    ensures RayCellIs(g, row, col, dr, dc, 1, Stone(turn.Opposite()))
    ensures k >= 2 ==> RayCellIs(g, row, col, dr, dc, 2, Stone(turn.Opposite()))
    ensures k >= 3 ==> RayCellIs(g, row, col, dr, dc, 3, Stone(turn.Opposite()))
    ensures RayCellIs(g, row, col, dr, dc, k + 1, Stone(turn))
  {
  }

  /** Where the start position holds white and black tokens. */
  lemma InitialStones(r: int, c: int)
    requires InGrid(r, c)
    ensures InitialBoard().grid[r][c] == Stone(White) <==> (r, c) == (3, 3) || (r, c) == (4, 4)
    ensures InitialBoard().grid[r][c] == Stone(Black) <==> (r, c) == (3, 4) || (r, c) == (4, 3)
  {
  }

  /** The i-th cell along a unit step. */
  lemma AlongStep(x: int, d: int, i: int)
    requires -1 <= d <= 1
    ensures Along(x, d, i) == x + d * i
  {
  }

  /**
   * On the start position no line is longer than one token: two white tokens
   * in a row are the diagonal pair, and the cell after them is empty.
   */
  lemma InitialLineShort(row: int, col: int, dr: int, dc: int)
    requires InGrid(row, col) && IsStep(dr, dc)
    ensures LineLength(InitialBoard().grid, Black, row, col, dr, dc) <= 1
  {
    var g := InitialBoard().grid;
    LineLengthFlanks(g, Black, row, col, dr, dc);
    var k := LineLength(g, Black, row, col, dr, dc);
    if k >= 2 {
      FlankedPrefix(g, Black, row, col, dr, dc, k);
      AlongStep(row, dr, 1); AlongStep(col, dc, 1);
      AlongStep(row, dr, 2); AlongStep(col, dc, 2);
      AlongStep(row, dr, 3); AlongStep(col, dc, 3);
      InitialStones(row + dr, col + dc);
      InitialStones(row + 2 * dr, col + 2 * dc);
      InitialStones(row + 3 * dr, col + 3 * dc);
    }
  }

  /** A one-token line on the start position starts from an opening cell in its direction. */
  lemma InitialLineOne(row: int, col: int, d: int)
    requires InGrid(row, col) && 0 <= d < 8
    ensures IsStep(StepsRow[d], StepsCol[d])
    ensures LineLength(InitialBoard().grid, Black, row, col, StepsRow[d], StepsCol[d]) == 1 ==>
      OpeningCell(row, col) && d == OpeningDirection(row, col)
  {
    var g := InitialBoard().grid;
    var dr, dc := StepsRow[d], StepsCol[d];
    StepsAreSteps(d);
    LineLengthFlanks(g, Black, row, col, dr, dc);
    if LineLength(g, Black, row, col, dr, dc) == 1 {
      FlankedPrefix(g, Black, row, col, dr, dc, 1);
      AlongStep(row, dr, 1); AlongStep(col, dc, 1);
      AlongStep(row, dr, 2); AlongStep(col, dc, 2);
      InitialStones(row + dr, col + dc);
      InitialStones(row + 2 * dr, col + 2 * dc);
      assert d == 0 || d == 2 || d == 4 || d == 6;
    }
  }

  /** On the start position a Black token flanks exactly one white token, in four cases only. */
  lemma InitialLine(row: int, col: int, d: int)
    requires InGrid(row, col) && 0 <= d < 8
    ensures IsStep(StepsRow[d], StepsCol[d])
    ensures LineLength(InitialBoard().grid, Black, row, col, StepsRow[d], StepsCol[d])
      == if OpeningCell(row, col) && d == OpeningDirection(row, col) then 1 else 0
  {
    var g := InitialBoard().grid;
    var dr, dc := StepsRow[d], StepsCol[d];
    StepsAreSteps(d);
    InitialLineShort(row, col, dr, dc);
    InitialLineOne(row, col, d);
    if OpeningCell(row, col) && d == OpeningDirection(row, col) {
      assert RayCellIs(g, row, col, dr, dc, 1, Stone(White));
      assert RayCellIs(g, row, col, dr, dc, 2, Stone(Black));
      LineLengthFlanks(g, Black, row, col, dr, dc);
      assert Flanks(g, Black, row, col, dr, dc, 1);
    }
  }

  /** Black's legal opening moves are exactly the four cells next to the white tokens. */
  lemma InitialLegal(row: int, col: int)
    requires InGrid(row, col)
    ensures IsLegal(InitialBoard().grid, Black, row, col) <==> OpeningCell(row, col)
  {
    var g := InitialBoard().grid;
    forall d | 0 <= d < 8
      ensures IsStep(StepsRow[d], StepsCol[d])
      ensures LineLength(g, Black, row, col, StepsRow[d], StepsCol[d])
        == if OpeningCell(row, col) && d == OpeningDirection(row, col) then 1 else 0
    {
      InitialLine(row, col, d);
    }
    if OpeningCell(row, col) {
      var d := OpeningDirection(row, col);
      assert 0 <= d < 8 && IsStep(StepsRow[d], StepsCol[d]) && LineLength(g, Black, row, col, StepsRow[d], StepsCol[d]) > 0;
    }
  }

  lemma {:induction false} InitialCapturesUpTo(row: int, col: int, n: int)
    requires InGrid(row, col) && 0 <= n <= 8
    ensures Captures(InitialBoard().grid, Black, row, col, n)
      == if OpeningCell(row, col) && OpeningDirection(row, col) < n then 1 else 0
  {
    if n > 0 {
      InitialCapturesUpTo(row, col, n - 1);
      InitialLine(row, col, n - 1);
    }
  }

  /** Each opening move turns over exactly one white token. */
  lemma InitialCaptures(row: int, col: int)
    requires OpeningCell(row, col)
    ensures Captures(InitialBoard().grid, Black, row, col, 8) == 1
  {
    InitialCapturesUpTo(row, col, 8);
  }

  /** A row whose only legal move, if any, is in column c0 contributes that one child. */
  lemma {:induction false} RowChildrenSingle(b: Board, row: int, col: int, c0: int)
    requires 0 <= row < GridSize && 0 <= col <= GridSize
    requires forall c :: 0 <= c < GridSize ==> (IsLegal(b.grid, b.turn, row, c) <==> c == c0)
    ensures RowChildren(b, row, col) == if 0 <= c0 < col then MoveAt(b, row, c0) else []
  {
    if col > 0 {
      RowChildrenSingle(b, row, col - 1, c0);
      var m := MoveAt(b, row, col - 1);
      assert RowChildren(b, row, col) == RowChildren(b, row, col - 1) + m;
      if col - 1 != c0 {
        assert !IsLegal(b.grid, b.turn, row, col - 1);
        assert m == [];
      }
    }
  }

  /** The column of the opening move on rows 2 to 5, and -1 elsewhere. */
  function OpeningColumn(row: int): int {
    if row == 2 then 3 else if row == 3 then 2 else if row == 4 then 5 else if row == 5 then 4 else -1
  }

  lemma InitialRow(row: int)
    requires 0 <= row < GridSize
    ensures RowChildren(InitialBoard(), row, GridSize) ==
      if 2 <= row <= 5 then MoveAt(InitialBoard(), row, OpeningColumn(row)) else []
  {
    forall c | 0 <= c < GridSize
      ensures IsLegal(InitialBoard().grid, Black, row, c) <==> c == OpeningColumn(row)
    {
      InitialLegal(row, c);
    }
    RowChildrenSingle(InitialBoard(), row, GridSize, OpeningColumn(row));
  }

  /**
   * The start position has exactly four children, for Black's moves at
   * (2, 3), (3, 2), (4, 5) and (5, 4) in that order.
   */
  lemma InitialChildren()
    ensures |Children(InitialBoard())| == 4
    ensures IsMove(InitialBoard(), Children(InitialBoard())[0], 2, 3)
    ensures IsMove(InitialBoard(), Children(InitialBoard())[1], 3, 2)
    ensures IsMove(InitialBoard(), Children(InitialBoard())[2], 4, 5)
    ensures IsMove(InitialBoard(), Children(InitialBoard())[3], 5, 4)
  {
    var b := InitialBoard();
    InitialRow(0); InitialRow(1); InitialRow(2); InitialRow(3);
    InitialRow(4); InitialRow(5); InitialRow(6); InitialRow(7);
    InitialLegal(2, 3); InitialLegal(3, 2); InitialLegal(4, 5); InitialLegal(5, 4);
    var m0 := LegalMove(b, 2, 3);
    var m1 := LegalMove(b, 3, 2);
    var m2 := LegalMove(b, 4, 5);
    var m3 := LegalMove(b, 5, 4);
    MiddleRowsChildren(b, m0, m1, m2, m3);
  }

  /** A board whose only legal moves lie one on each of the rows 2 to 5. */
  lemma MiddleRowsChildren(b: Board, x0: Board, x1: Board, x2: Board, x3: Board)
    requires RowChildren(b, 0, GridSize) == [] && RowChildren(b, 1, GridSize) == []
    requires RowChildren(b, 2, GridSize) == [x0] && RowChildren(b, 3, GridSize) == [x1]
    requires RowChildren(b, 4, GridSize) == [x2] && RowChildren(b, 5, GridSize) == [x3]
    requires RowChildren(b, 6, GridSize) == [] && RowChildren(b, 7, GridSize) == []
    ensures Children(b) == [x0, x1, x2, x3]
  {
    assert RowsChildren(b, 1) == [];
    assert RowsChildren(b, 2) == [];
    assert RowsChildren(b, 3) == [x0];
    assert RowsChildren(b, 4) == [x0, x1];
    assert RowsChildren(b, 5) == [x0, x1, x2];
    assert RowsChildren(b, 6) == [x0, x1, x2, x3];
    assert RowsChildren(b, 7) == [x0, x1, x2, x3];
  }

  /** The only child a legal move contributes. */
  lemma LegalMove(b: Board, row: int, col: int) returns (x: Board)
    requires InGrid(row, col) && IsLegal(b.grid, b.turn, row, col)
    ensures MoveAt(b, row, col) == [x] && IsMove(b, x, row, col)
  {
    x := MoveAt(b, row, col)[0];
  }
}
