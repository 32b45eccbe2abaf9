/**
 * The rules of Reversi as pure functions over board values: the grid, the
 * eight-direction ray scan, token placement with line flips, the ordered list
 * of children, token tallies and the winner.
 *
 * Coordinates are written (row, col) here; the imperative board class keeps
 * the (col, row) argument order of its public methods.
 */
module Reversi {
  import opened Options

  /** A player colour. An empty cell is `Empty`, not a null colour. */
  datatype Color = Black | White {
    function Opposite(): (o: Color)
      ensures o != this
    {
      if this == Black then White else Black
    }
  }

  datatype Cell = Empty | Stone(color: Color)

  /** The length of a side of the grid. */
  const GridSize: int := 8

  predicate IsGrid(g: seq<seq<Cell>>) {
    |g| == GridSize && forall r :: 0 <= r < GridSize ==> |g[r]| == GridSize
  }

  type Grid = g: seq<seq<Cell>> | IsGrid(g) witness seq(GridSize, _ => seq(GridSize, _ => Empty))

  /** The position of a game: the grid and the colour whose turn it is. */
  datatype Board = Board(grid: Grid, turn: Color)

  predicate InGrid(row: int, col: int) {
    0 <= row < GridSize && 0 <= col < GridSize
  }

  /** `grid` with the single cell (row, col) replaced by `x`. */
  function SetCell(g: Grid, row: int, col: int, x: Cell): (g': Grid)
    requires InGrid(row, col)
    ensures g'[row][col] == x
    ensures forall r, c :: InGrid(r, c) && (r, c) != (row, col) ==> g'[r][c] == g[r][c]
  {
    g[row := g[row][col := x]]
  }

  // ---------------------------------------------------------------------
  // The initial position

  function InitialCell(row: int, col: int): Cell {
    if (row, col) == (3, 3) || (row, col) == (4, 4) then Stone(White)
    else if (row, col) == (3, 4) || (row, col) == (4, 3) then Stone(Black)
    else Empty
  }

  /** The start position of classic Reversi; Black moves first. */
  function InitialBoard(): Board {
    Board(seq(GridSize, r => seq(GridSize, c => InitialCell(r, c))), Black)
  }

  // ---------------------------------------------------------------------
  // Directions and rays

  /** The eight directions in the order the move test visits them: E, SE, S, SW, W, NW, N, NE. */
  const StepsCol: seq<int> := [1, 1, 0, -1, -1, -1, 0, 1]
  const StepsRow: seq<int> := [0, 1, 1, 1, 0, -1, -1, -1]

  predicate IsStep(dr: int, dc: int) {
    -1 <= dr <= 1 && -1 <= dc <= 1 && (dr != 0 || dc != 0)
  }

  /** The coordinate reached from `x` after `i` unit steps `d`, for d in {-1, 0, 1}. */
  function Along(x: int, d: int, i: int): int {
    if d == 1 then x + i else if d == -1 then x - i else x
  }

  /**
   * The ray scan from the i-th cell on: the number of opponent cells
   * between the start and a closing friendly cell, or 0 when the ray runs
   * into an empty cell or off the grid first.
   */
  function ScanFrom(g: Grid, turn: Color, row: int, col: int, dr: int, dc: int, i: nat): (n: nat)
    requires InGrid(row, col) && IsStep(dr, dc) && 1 <= i <= GridSize
    ensures n <= 6
    ensures n == 0 || i - 1 <= n
    decreases GridSize - i
  {
    var r, c := Along(row, dr, i), Along(col, dc, i);
    if !InGrid(r, c) then 0
    else if g[r][c] == Stone(turn) then i - 1
    else if g[r][c] == Stone(turn.Opposite()) && i < GridSize then ScanFrom(g, turn, row, col, dr, dc, i + 1)
    else 0
  }

  /** How many opponent tokens a token of `turn` at (row, col) would flip along (dr, dc). */
  function LineLength(g: Grid, turn: Color, row: int, col: int, dr: int, dc: int): nat
    requires InGrid(row, col) && IsStep(dr, dc)
  {
    ScanFrom(g, turn, row, col, dr, dc, 1)
  }

  /** The i-th cell along (dr, dc) from (row, col) is on the grid and holds `x`. */
  predicate RayCellIs(g: Grid, row: int, col: int, dr: int, dc: int, i: int, x: Cell) {
    InGrid(Along(row, dr, i), Along(col, dc, i)) && g[Along(row, dr, i)][Along(col, dc, i)] == x
  }

  /**
   * The next k cells along (dr, dc) hold the opponent of `turn` and the
   * (k+1)-th holds `turn`: a line that a move at (row, col) flips.
   */
  predicate Flanks(g: Grid, turn: Color, row: int, col: int, dr: int, dc: int, k: int) {
    && k >= 1
    && (forall i :: 1 <= i <= k ==> RayCellIs(g, row, col, dr, dc, i, Stone(turn.Opposite())))
    && RayCellIs(g, row, col, dr, dc, k + 1, Stone(turn))
  }

  /** The cells at distances 1..k along (dr, dc) are all on the grid and hold a token. */
  predicate RayOccupied(g: Grid, row: int, col: int, dr: int, dc: int, k: int) {
    forall i :: 1 <= i <= k ==>
      InGrid(Along(row, dr, i), Along(col, dc, i)) && g[Along(row, dr, i)][Along(col, dc, i)] != Empty
  }

  /** The index along the ray (dr, dc) from (row, col) that reaches (r, c), if any does. */
  function RayIndex(row: int, col: int, dr: int, dc: int, r: int, c: int): int {
    if dr == 1 then r - row
    else if dr == -1 then row - r
    else if dc == 1 then c - col
    else col - c
  }

  /** (r, c) lies at one of the distances 1..k from (row, col) along (dr, dc). */
  predicate OnRay(row: int, col: int, dr: int, dc: int, k: int, r: int, c: int) {
    var i := RayIndex(row, col, dr, dc, r, c);
    1 <= i <= k && Along(row, dr, i) == r && Along(col, dc, i) == c
  }

  /** A token turned over; an empty cell has nothing to turn. */
  function Flip(x: Cell): Cell {
    match x
    case Empty => Empty
    case Stone(c) => Stone(c.Opposite())
  }

  /** `g` with the cells at distances 1..k along (dr, dc) from (row, col) turned over. */
  function FlipRay(g: Grid, row: int, col: int, dr: int, dc: int, k: int): Grid {
    seq(GridSize, r requires 0 <= r < GridSize => seq(GridSize, c requires 0 <= c < GridSize =>
      if OnRay(row, col, dr, dc, k, r, c) then Flip(g[r][c]) else g[r][c]))
  }

  // ---------------------------------------------------------------------
  // Placing a token

  /** (r, c) is flipped by a move at (row, col) through one of the first n directions. */
  predicate CapturedUpTo(g: Grid, turn: Color, row: int, col: int, n: int, r: int, c: int)
    requires InGrid(row, col) && 0 <= n <= 8
  {
    exists d :: 0 <= d < n && IsStep(StepsRow[d], StepsCol[d])
      && OnRay(row, col, StepsRow[d], StepsCol[d], LineLength(g, turn, row, col, StepsRow[d], StepsCol[d]), r, c)
  }

  /** One of the first n directions from (row, col) holds a line to flip. */
  predicate LegalUpTo(g: Grid, turn: Color, row: int, col: int, n: int)
    requires InGrid(row, col) && 0 <= n <= 8
  {
    exists d :: 0 <= d < n && IsStep(StepsRow[d], StepsCol[d])
      && LineLength(g, turn, row, col, StepsRow[d], StepsCol[d]) > 0
  }

  /** The grid once the first n directions of a move at (row, col) have been processed. */
  function Partial(g: Grid, turn: Color, row: int, col: int, n: int): Grid
    requires InGrid(row, col) && 0 <= n <= 8
  {
    seq(GridSize, r requires 0 <= r < GridSize => seq(GridSize, c requires 0 <= c < GridSize =>
      if ((r, c) == (row, col) && LegalUpTo(g, turn, row, col, n)) || CapturedUpTo(g, turn, row, col, n, r, c)
      then Stone(turn) else g[r][c]))
  }

  /**
   * The grid after the first n directions of the sweep a move at (row, col)
   * performs: each direction in turn is measured on the grid reached so far,
   * and a flanked line is turned over and the mover's token put down.
   */
  function Sweep(g: Grid, turn: Color, row: int, col: int, n: int): Grid
    requires InGrid(row, col) && 0 <= n <= 8
  {
    if n == 0 then g
    else
      var p := Sweep(g, turn, row, col, n - 1);
      StepsAreSteps(n - 1);
      var k := LineLength(p, turn, row, col, StepsRow[n - 1], StepsCol[n - 1]);
      if k > 0 then SetCell(FlipRay(p, row, col, StepsRow[n - 1], StepsCol[n - 1], k), row, col, Stone(turn))
      else p
  }

  /** A move of `turn` at (row, col) is legal: the cell is empty and some line flips. */
  predicate IsLegal(g: Grid, turn: Color, row: int, col: int)
    requires InGrid(row, col)
  {
    g[row][col] == Empty && LegalUpTo(g, turn, row, col, 8)
  }

  /** The grid after `turn` tries to move at (row, col): nothing happens on an occupied cell. */
  function Place(g: Grid, turn: Color, row: int, col: int): Grid
    requires InGrid(row, col)
  {
    if g[row][col] != Empty then g else Sweep(g, turn, row, col, 8)
  }

  // ---------------------------------------------------------------------
  // Children in row-major order

  /** The child for a move at (row, col), if that move is legal; it keeps the parent's turn. */
  function MoveAt(b: Board, row: int, col: int): seq<Board>
    requires InGrid(row, col)
  {
    if IsLegal(b.grid, b.turn, row, col)
    then [Board(Place(b.grid, b.turn, row, col), b.turn)]
    else []
  }

  /** The children for the cells (row, 0) .. (row, col - 1). */
  function RowChildren(b: Board, row: int, col: int): seq<Board>
    requires 0 <= row < GridSize && 0 <= col <= GridSize
  {
    if col == 0 then [] else RowChildren(b, row, col - 1) + MoveAt(b, row, col - 1)
  }

  /** The children for the rows 0 .. row - 1. */
  function RowsChildren(b: Board, row: int): seq<Board>
    requires 0 <= row <= GridSize
  {
    if row == 0 then [] else RowsChildren(b, row - 1) + RowChildren(b, row - 1, GridSize)
  }

  /** Every legal successor of `b`, one per legal cell, in row-major order. */
  function Children(b: Board): seq<Board> {
    RowsChildren(b, GridSize)
  }

  // ---------------------------------------------------------------------
  // Tallies and the winner

  function RowTally(s: seq<Cell>, v: Cell): (n: nat)
    ensures n <= |s|
  {
    if s == [] then 0 else RowTally(s[..|s| - 1], v) + (if s[|s| - 1] == v then 1 else 0)
  }

  function Tally(g: seq<seq<Cell>>, v: Cell): nat {
    if g == [] then 0 else Tally(g[..|g| - 1], v) + RowTally(g[|g| - 1], v)
  }

  /** The colour with strictly more tokens, or None on a tie. */
  function Winner(g: Grid): Option<Color> {
    var black, white := Tally(g, Stone(Black)), Tally(g, Stone(White));
    if black > white then Some(Black)
    else if black < white then Some(White)
    else None
  }

  // ---------------------------------------------------------------------
  // Lemmas: colours

  /** Taking the opposite colour twice gives the colour back. */
  lemma OppositeIsInvolution(c: Color)
    ensures c.Opposite() != c && c.Opposite().Opposite() == c
  {
  }

  // ---------------------------------------------------------------------
  // Lemmas: the ray scan

  lemma StepsAreSteps(d: int)
    requires 0 <= d < 8
    ensures IsStep(StepsRow[d], StepsCol[d])
    ensures forall e :: 0 <= e < 8 && e != d ==> (StepsRow[e], StepsCol[e]) != (StepsRow[d], StepsCol[d])
  {
  }

  /** A cell on the grid at distance i from a cell on the grid lies at most 7 steps away. */
  lemma AlongBound(row: int, col: int, dr: int, dc: int, i: int)
    requires InGrid(row, col) && IsStep(dr, dc) && i >= 0
    requires InGrid(Along(row, dr, i), Along(col, dc, i))
    ensures i <= GridSize - 1
  {
  }

  lemma RayIndexAlong(row: int, col: int, dr: int, dc: int, j: int)
    requires IsStep(dr, dc)
    ensures RayIndex(row, col, dr, dc, Along(row, dr, j), Along(col, dc, j)) == j
  {
  }

  /** Rays from one cell in two different directions share no cell. */
  lemma RaysDisjoint(row: int, col: int, dr: int, dc: int, dr': int, dc': int, i: int, j: int)
    requires IsStep(dr, dc) && IsStep(dr', dc') && (dr, dc) != (dr', dc')
    requires i >= 1 && j >= 1
    ensures (Along(row, dr, i), Along(col, dc, i)) != (Along(row, dr', j), Along(col, dc', j))
  {
  }

  lemma {:induction false} ScanSound(g: Grid, turn: Color, row: int, col: int, dr: int, dc: int, i: nat)
    requires InGrid(row, col) && IsStep(dr, dc) && 1 <= i <= GridSize
    ensures var n := ScanFrom(g, turn, row, col, dr, dc, i);
      n > 0 ==>
        && (forall j :: i <= j <= n ==> RayCellIs(g, row, col, dr, dc, j, Stone(turn.Opposite())))
        && RayCellIs(g, row, col, dr, dc, n + 1, Stone(turn))
    decreases GridSize - i
  {
    var r, c := Along(row, dr, i), Along(col, dc, i);
    if InGrid(r, c) && g[r][c] == Stone(turn.Opposite()) && i < GridSize {
      ScanSoundStep(g, turn, row, col, dr, dc, i);
    }
  }

  /** The step of `ScanSound` past an opponent token. */
  lemma {:induction false} ScanSoundStep(g: Grid, turn: Color, row: int, col: int, dr: int, dc: int, i: nat)
    requires InGrid(row, col) && IsStep(dr, dc) && 1 <= i < GridSize
    requires RayCellIs(g, row, col, dr, dc, i, Stone(turn.Opposite()))
    ensures var n := ScanFrom(g, turn, row, col, dr, dc, i);
      n > 0 ==>
        && (forall j :: i <= j <= n ==> RayCellIs(g, row, col, dr, dc, j, Stone(turn.Opposite())))
        && RayCellIs(g, row, col, dr, dc, n + 1, Stone(turn))
    decreases GridSize - i, 0
  {
    var n := ScanFrom(g, turn, row, col, dr, dc, i);
    assert n == ScanFrom(g, turn, row, col, dr, dc, i + 1);
    ScanSound(g, turn, row, col, dr, dc, i + 1);
    if n > 0 {
      forall j | i <= j <= n
        ensures RayCellIs(g, row, col, dr, dc, j, Stone(turn.Opposite()))
      {
        if j > i {
          assert i + 1 <= j <= n;
        }
      }
    }
  }

  lemma {:induction false} ScanComplete(g: Grid, turn: Color, row: int, col: int, dr: int, dc: int, i: nat, k: int)
    requires InGrid(row, col) && IsStep(dr, dc) && 1 <= i <= GridSize
    requires k >= 1 && i - 1 <= k
    requires forall j :: i <= j <= k ==> RayCellIs(g, row, col, dr, dc, j, Stone(turn.Opposite()))
    requires RayCellIs(g, row, col, dr, dc, k + 1, Stone(turn))
    ensures ScanFrom(g, turn, row, col, dr, dc, i) == k
    decreases GridSize - i
  {
    AlongBound(row, col, dr, dc, k + 1);
    if i <= k {
      assert RayCellIs(g, row, col, dr, dc, i, Stone(turn.Opposite()));
      ScanComplete(g, turn, row, col, dr, dc, i + 1, k);
    }
  }

  /**
   * The scan counts a line exactly: a positive result k means the next k
   * cells hold the opponent and the one after holds the mover, and any such
   * k is the result. So a result is 0 exactly when no line flanks.
   */
  lemma LineLengthFlanks(g: Grid, turn: Color, row: int, col: int, dr: int, dc: int)
    requires InGrid(row, col) && IsStep(dr, dc)
    ensures LineLength(g, turn, row, col, dr, dc) <= 6
    ensures LineLength(g, turn, row, col, dr, dc) > 0 ==> Flanks(g, turn, row, col, dr, dc, LineLength(g, turn, row, col, dr, dc))
    ensures forall k :: Flanks(g, turn, row, col, dr, dc, k) ==> LineLength(g, turn, row, col, dr, dc) == k
  {
    ScanSound(g, turn, row, col, dr, dc, 1);
    forall k | Flanks(g, turn, row, col, dr, dc, k)
      ensures LineLength(g, turn, row, col, dr, dc) == k
    {
      ScanComplete(g, turn, row, col, dr, dc, 1, k);
    }
  }

  /** Two grids that agree on the ray from the i-th cell on give the same scan. */
  lemma {:induction false} ScanDependsOnRay(g: Grid, g': Grid, turn: Color, row: int, col: int, dr: int, dc: int, i: nat)
    requires InGrid(row, col) && IsStep(dr, dc) && 1 <= i <= GridSize
    requires forall j :: i <= j <= GridSize && InGrid(Along(row, dr, j), Along(col, dc, j)) ==>
      g[Along(row, dr, j)][Along(col, dc, j)] == g'[Along(row, dr, j)][Along(col, dc, j)]
    ensures ScanFrom(g, turn, row, col, dr, dc, i) == ScanFrom(g', turn, row, col, dr, dc, i)
    decreases GridSize - i
  {
    if i < GridSize {
      ScanDependsOnRay(g, g', turn, row, col, dr, dc, i + 1);
    }
  }

  // ---------------------------------------------------------------------
  // Lemmas: placing a token direction by direction

  /** Processing directions 0..n-1 leaves the rays of the later directions untouched. */
  lemma PartialOnLaterRay(g: Grid, turn: Color, row: int, col: int, n: int, d: int, j: int)
    requires InGrid(row, col) && 0 <= n <= d < 8 && j >= 1
    requires InGrid(Along(row, StepsRow[d], j), Along(col, StepsCol[d], j))
    ensures Partial(g, turn, row, col, n)[Along(row, StepsRow[d], j)][Along(col, StepsCol[d], j)]
         == g[Along(row, StepsRow[d], j)][Along(col, StepsCol[d], j)]
  {
    var dr, dc := StepsRow[d], StepsCol[d];
    StepsAreSteps(d);
    var r, c := Along(row, dr, j), Along(col, dc, j);
    assert (r, c) != (row, col);
    if CapturedUpTo(g, turn, row, col, n, r, c) {
      var e :| 0 <= e < n && IsStep(StepsRow[e], StepsCol[e])
        && OnRay(row, col, StepsRow[e], StepsCol[e], LineLength(g, turn, row, col, StepsRow[e], StepsCol[e]), r, c);
      RaysDisjoint(row, col, dr, dc, StepsRow[e], StepsCol[e], j, RayIndex(row, col, StepsRow[e], StepsCol[e], r, c));
      assert false;
    }
  }

  /** The count in a direction not yet processed is the count on the original grid. */
  lemma PartialKeepsLine(g: Grid, turn: Color, row: int, col: int, n: int, d: int)
    requires InGrid(row, col) && 0 <= n <= d < 8
    ensures IsStep(StepsRow[d], StepsCol[d])
    ensures LineLength(Partial(g, turn, row, col, n), turn, row, col, StepsRow[d], StepsCol[d])
         == LineLength(g, turn, row, col, StepsRow[d], StepsCol[d])
  {
    var dr, dc := StepsRow[d], StepsCol[d];
    StepsAreSteps(d);
    var p := Partial(g, turn, row, col, n);
    forall j | 1 <= j <= GridSize && InGrid(Along(row, dr, j), Along(col, dc, j))
      ensures p[Along(row, dr, j)][Along(col, dc, j)] == g[Along(row, dr, j)][Along(col, dc, j)]
    {
      PartialOnLaterRay(g, turn, row, col, n, d, j);
    }
    ScanDependsOnRay(p, g, turn, row, col, dr, dc, 1);
  }

  lemma PartialNone(g: Grid, turn: Color, row: int, col: int)
    requires InGrid(row, col)
    ensures Partial(g, turn, row, col, 0) == g
  {
    var p := Partial(g, turn, row, col, 0);
    forall r | 0 <= r < GridSize ensures p[r] == g[r] {
    }
  }

  lemma LegalStep(g: Grid, turn: Color, row: int, col: int, n: int)
    requires InGrid(row, col) && 0 <= n < 8
    ensures IsStep(StepsRow[n], StepsCol[n])
    ensures LegalUpTo(g, turn, row, col, n + 1) <==>
      LegalUpTo(g, turn, row, col, n) || LineLength(g, turn, row, col, StepsRow[n], StepsCol[n]) > 0
  {
    StepsAreSteps(n);
    if LegalUpTo(g, turn, row, col, n + 1) && !LegalUpTo(g, turn, row, col, n) {
      var e :| 0 <= e < n + 1 && IsStep(StepsRow[e], StepsCol[e])
        && LineLength(g, turn, row, col, StepsRow[e], StepsCol[e]) > 0;
      assert e == n;
    }
  }

  lemma CapturedStep(g: Grid, turn: Color, row: int, col: int, n: int, r: int, c: int)
    requires InGrid(row, col) && 0 <= n < 8
    ensures IsStep(StepsRow[n], StepsCol[n])
    ensures CapturedUpTo(g, turn, row, col, n + 1, r, c) <==>
      || CapturedUpTo(g, turn, row, col, n, r, c)
      || OnRay(row, col, StepsRow[n], StepsCol[n], LineLength(g, turn, row, col, StepsRow[n], StepsCol[n]), r, c)
  {
    StepsAreSteps(n);
    if CapturedUpTo(g, turn, row, col, n + 1, r, c) && !CapturedUpTo(g, turn, row, col, n, r, c) {
      var e :| 0 <= e < n + 1 && IsStep(StepsRow[e], StepsCol[e])
        && OnRay(row, col, StepsRow[e], StepsCol[e], LineLength(g, turn, row, col, StepsRow[e], StepsCol[e]), r, c);
      assert e == n;
    }
  }

  /** A cell of the line flanked in direction n still holds the opponent after directions 0..n-1. */
  lemma FlankedCellBeforeStep(g: Grid, turn: Color, row: int, col: int, n: int, r: int, c: int)
    requires InGrid(row, col) && 0 <= n < 8 && InGrid(r, c)
    requires IsStep(StepsRow[n], StepsCol[n])
    requires OnRay(row, col, StepsRow[n], StepsCol[n], LineLength(g, turn, row, col, StepsRow[n], StepsCol[n]), r, c)
    ensures (r, c) != (row, col)
    ensures Partial(g, turn, row, col, n)[r][c] == Stone(turn.Opposite())
  {
    var dr, dc := StepsRow[n], StepsCol[n];
    var j := RayIndex(row, col, dr, dc, r, c);
    LineLengthFlanks(g, turn, row, col, dr, dc);
    assert RayCellIs(g, row, col, dr, dc, j, Stone(turn.Opposite()));
    PartialOnLaterRay(g, turn, row, col, n, n, j);
  }

  /** One cell of the declarative grid after n directions. */
  lemma PartialCell(g: Grid, turn: Color, row: int, col: int, n: int, r: int, c: int)
    requires InGrid(row, col) && 0 <= n <= 8 && InGrid(r, c)
    ensures Partial(g, turn, row, col, n)[r][c] ==
      if ((r, c) == (row, col) && LegalUpTo(g, turn, row, col, n)) || CapturedUpTo(g, turn, row, col, n, r, c)
      then Stone(turn) else g[r][c]
  {
  }

  /** One cell of a grid with a ray turned over. */
  lemma FlipRayCell(p: Grid, row: int, col: int, dr: int, dc: int, k: int, r: int, c: int)
    requires InGrid(r, c)
    ensures FlipRay(p, row, col, dr, dc, k)[r][c] == if OnRay(row, col, dr, dc, k, r, c) then Flip(p[r][c]) else p[r][c]
  {
  }

  /** A cell that direction n does not flip keeps its value from n to n + 1 directions. */
  lemma SweepCellKept(g: Grid, turn: Color, row: int, col: int, n: int, r: int, c: int)
    requires InGrid(row, col) && 0 <= n < 8 && InGrid(r, c)
    requires IsStep(StepsRow[n], StepsCol[n])
    requires !OnRay(row, col, StepsRow[n], StepsCol[n], LineLength(g, turn, row, col, StepsRow[n], StepsCol[n]), r, c)
    requires (r, c) != (row, col) || LineLength(g, turn, row, col, StepsRow[n], StepsCol[n]) == 0
    ensures Partial(g, turn, row, col, n + 1)[r][c] == Partial(g, turn, row, col, n)[r][c]
  {
    LegalStep(g, turn, row, col, n);
    CapturedStep(g, turn, row, col, n, r, c);
    PartialCell(g, turn, row, col, n, r, c);
    PartialCell(g, turn, row, col, n + 1, r, c);
  }

  /** Once direction n flanks a line, the mover's token is on (row, col). */
  lemma SweepCellTarget(g: Grid, turn: Color, row: int, col: int, n: int)
    requires InGrid(row, col) && 0 <= n < 8
    requires IsStep(StepsRow[n], StepsCol[n])
    requires LineLength(g, turn, row, col, StepsRow[n], StepsCol[n]) > 0
    ensures Partial(g, turn, row, col, n + 1)[row][col] == Stone(turn)
  {
    LegalStep(g, turn, row, col, n);
    PartialCell(g, turn, row, col, n + 1, row, col);
  }

  /** A cell of the line flanked in direction n holds the mover's token after it, and turns over to it. */
  lemma SweepCellFlipped(g: Grid, turn: Color, row: int, col: int, n: int, r: int, c: int)
    requires InGrid(row, col) && 0 <= n < 8 && InGrid(r, c)
    requires IsStep(StepsRow[n], StepsCol[n])
    requires OnRay(row, col, StepsRow[n], StepsCol[n], LineLength(g, turn, row, col, StepsRow[n], StepsCol[n]), r, c)
    ensures (r, c) != (row, col)
    ensures Partial(g, turn, row, col, n + 1)[r][c] == Stone(turn)
    ensures Flip(Partial(g, turn, row, col, n)[r][c]) == Stone(turn)
  {
    FlankedCellBeforeStep(g, turn, row, col, n, r, c);
    CapturedStep(g, turn, row, col, n, r, c);
    PartialCell(g, turn, row, col, n + 1, r, c);
  }

  lemma SweepCell(g: Grid, turn: Color, row: int, col: int, n: int, r: int, c: int)
    requires InGrid(row, col) && 0 <= n < 8 && InGrid(r, c)
    ensures IsStep(StepsRow[n], StepsCol[n])
    ensures var k := LineLength(g, turn, row, col, StepsRow[n], StepsCol[n]);
      var p := Partial(g, turn, row, col, n);
      Partial(g, turn, row, col, n + 1)[r][c] ==
        if k > 0 then SetCell(FlipRay(p, row, col, StepsRow[n], StepsCol[n], k), row, col, Stone(turn))[r][c]
        else p[r][c]
  {
    StepsAreSteps(n);
    var dr, dc := StepsRow[n], StepsCol[n];
    var k := LineLength(g, turn, row, col, dr, dc);
    var p := Partial(g, turn, row, col, n);
    if k == 0 {
      SweepCellKept(g, turn, row, col, n, r, c);
    } else if (r, c) == (row, col) {
      SweepCellTarget(g, turn, row, col, n);
    } else {
      FlipRayCell(p, row, col, dr, dc, k, r, c);
      if OnRay(row, col, dr, dc, k, r, c) {
        SweepCellFlipped(g, turn, row, col, n, r, c);
      } else {
        SweepCellKept(g, turn, row, col, n, r, c);
      }
    }
  }

  /**
   * One more direction: when it flanks a line of k tokens, the line is
   * turned over and the mover's token is put on (row, col); otherwise the
   * grid stays as it was.
   */
  lemma SweepStep(g: Grid, turn: Color, row: int, col: int, n: int)
    requires InGrid(row, col) && 0 <= n < 8
    ensures IsStep(StepsRow[n], StepsCol[n])
    ensures var k := LineLength(g, turn, row, col, StepsRow[n], StepsCol[n]);
      && (LegalUpTo(g, turn, row, col, n + 1) <==> LegalUpTo(g, turn, row, col, n) || k > 0)
      && Partial(g, turn, row, col, n + 1) ==
         if k > 0
         then SetCell(FlipRay(Partial(g, turn, row, col, n), row, col, StepsRow[n], StepsCol[n], k), row, col, Stone(turn))
         else Partial(g, turn, row, col, n)
  {
    LegalStep(g, turn, row, col, n);
    var k := LineLength(g, turn, row, col, StepsRow[n], StepsCol[n]);
    var p := Partial(g, turn, row, col, n);
    var q := Partial(g, turn, row, col, n + 1);
    var rhs := if k > 0 then SetCell(FlipRay(p, row, col, StepsRow[n], StepsCol[n], k), row, col, Stone(turn)) else p;
    forall r | 0 <= r < GridSize ensures q[r] == rhs[r] {
      forall c | 0 <= c < GridSize ensures q[r][c] == rhs[r][c] {
        SweepCell(g, turn, row, col, n, r, c);
      }
    }
  }

  /**
   * One round of the direction sweep, seen from the grid `p` reached after
   * the first n directions: the line in direction n is measured on `p`, and
   * capturing it there (or nothing) gives the grid after n + 1 directions.
   */
  lemma SweepFrom(g: Grid, turn: Color, row: int, col: int, n: int, p: Grid)
    requires InGrid(row, col) && 0 <= n < 8
    requires p == Partial(g, turn, row, col, n)
    ensures IsStep(StepsRow[n], StepsCol[n])
    ensures var k := LineLength(p, turn, row, col, StepsRow[n], StepsCol[n]);
      && (LegalUpTo(g, turn, row, col, n + 1) <==> LegalUpTo(g, turn, row, col, n) || k > 0)
      && Partial(g, turn, row, col, n + 1) ==
         if k > 0
         then SetCell(FlipRay(p, row, col, StepsRow[n], StepsCol[n], k), row, col, Stone(turn))
         else p
  {
    PartialKeepsLine(g, turn, row, col, n, n);
    SweepStep(g, turn, row, col, n);
  }

  /** Grids are equal when they agree cell by cell. */
  lemma GridExt(a: Grid, b: Grid)
    requires forall r, c :: InGrid(r, c) ==> a[r][c] == b[r][c]
    ensures a == b
  {
    forall r | 0 <= r < GridSize ensures a[r] == b[r] {
      forall c | 0 <= c < GridSize ensures a[r][c] == b[r][c] {
        assert InGrid(r, c);
      }
    }
  }

  /** Without a flanked line in the first n directions, nothing has changed. */
  lemma PartialIllegal(g: Grid, turn: Color, row: int, col: int, n: int)
    requires InGrid(row, col) && 0 <= n <= 8
    requires !LegalUpTo(g, turn, row, col, n)
    ensures Partial(g, turn, row, col, n) == g
  {
    var p := Partial(g, turn, row, col, n);
    forall r, c | InGrid(r, c) ensures p[r][c] == g[r][c] {
      assert !CapturedUpTo(g, turn, row, col, n, r, c);
    }
    GridExt(p, g);
  }

  /** The sweep after n directions is the grid the declarative description gives. */
  lemma {:induction false} SweepIsPartial(g: Grid, turn: Color, row: int, col: int, n: int)
    requires InGrid(row, col) && 0 <= n <= 8
    ensures Sweep(g, turn, row, col, n) == Partial(g, turn, row, col, n)
  {
    if n == 0 {
      PartialNone(g, turn, row, col);
    } else {
      SweepIsPartial(g, turn, row, col, n - 1);
      SweepFrom(g, turn, row, col, n - 1, Partial(g, turn, row, col, n - 1));
    }
  }

  /**
   * One round of the sweep: the line in direction n is measured on the grid
   * reached so far, which still holds that line as the original grid had it,
   * and the move is legal through n + 1 directions when it was through n or
   * this line flanks.
   */
  lemma SweepRound(g: Grid, turn: Color, row: int, col: int, n: int)
    requires InGrid(row, col) && 0 <= n < 8
    ensures IsStep(StepsRow[n], StepsCol[n])
    ensures var k := LineLength(Sweep(g, turn, row, col, n), turn, row, col, StepsRow[n], StepsCol[n]);
      && k == LineLength(g, turn, row, col, StepsRow[n], StepsCol[n])
      && (LegalUpTo(g, turn, row, col, n + 1) <==> LegalUpTo(g, turn, row, col, n) || k > 0)
  {
    SweepIsPartial(g, turn, row, col, n);
    PartialKeepsLine(g, turn, row, col, n, n);
    LegalStep(g, turn, row, col, n);
  }

  /**
   * What a move does, cell by cell: an illegal move changes nothing; a legal
   * one puts the mover's token on (row, col) and on every cell of every
   * flanked line, and leaves every other cell as it was.
   */
  lemma PlaceEffect(g: Grid, turn: Color, row: int, col: int)
    requires InGrid(row, col)
    ensures !IsLegal(g, turn, row, col) ==> Place(g, turn, row, col) == g
    ensures IsLegal(g, turn, row, col) ==> forall r, c :: InGrid(r, c) ==>
      Place(g, turn, row, col)[r][c] ==
        if (r, c) == (row, col) || CapturedUpTo(g, turn, row, col, 8, r, c) then Stone(turn) else g[r][c]
  {
    SweepIsPartial(g, turn, row, col, 8);
    if g[row][col] == Empty && !LegalUpTo(g, turn, row, col, 8) {
      PartialIllegal(g, turn, row, col, 8);
    }
    if IsLegal(g, turn, row, col) {
      forall r, c | InGrid(r, c)
        ensures Place(g, turn, row, col)[r][c] ==
          if (r, c) == (row, col) || CapturedUpTo(g, turn, row, col, 8, r, c) then Stone(turn) else g[r][c]
      {
        PartialCell(g, turn, row, col, 8, r, c);
      }
    }
  }
}
