/**
 * The temporal-difference learning player, without its neural network: the
 * encoding of a board into the network's 128 inputs, the epsilon-greedy move
 * choice with a linearly decreasing epsilon, the outcome of a finished game,
 * and the bookkeeping of the previous input and of the training batches handed
 * to the network.
 *
 * The network is a parameter `evaluate` from an input vector to a value; what
 * the player teaches it is recorded, batch by batch, in the field `batches`.
 * The random draw of epsilon-greedy selection is the parameter `draw`, and the
 * random child the parameter `pick`, taken modulo the number of children.
 */
module NeuralNetworkPlayers {
  import opened Options
  import opened Reversi
  import opened ReversiFacts
  import opened Symmetries

  // ---------------------------------------------------------------------
  // The network input

  /** Channel 0 of a cell is 1 for our token, channel 1 is 1 for the opponent's; otherwise -1. */
  function Channel(x: Cell, ourColor: Color, ch: int): int {
    if ch == 0 then (if x == Stone(ourColor) then 1 else -1)
    else (if x == Stone(ourColor.Opposite()) then 1 else -1)
  }

  /** The cell with index row * 8 + col. */
  function CellAt(g: Grid, i: int): Cell
    requires IsCell(i)
  {
    CoordsIndex(i);
    g[RowOf(i)][ColOf(i)]
  }

  /** The input vector of a grid as seen by `ourColor`: two channels per cell, cell by cell. */
  function Encode(g: Grid, ourColor: Color): (input: seq<int>)
    ensures |input| == InputSize
  {
    seq(InputSize, x requires 0 <= x < InputSize => Channel(CellAt(g, x / 2), ourColor, x % 2))
  }

  /** Fills the input vector of a board, cell by cell. */
  method ExtractInput(board: Board, ourColor: Color) returns (input: seq<int>)
    ensures input == Encode(board.grid, ourColor)
  {
    var a := new int[InputSize];
    for i := 0 to CellCount
      invariant forall x :: 0 <= x < 2 * i ==> a[x] == Encode(board.grid, ourColor)[x]
    {
      var row := i / Side;
      var col := i % Side;
      CoordsIndex(i);
      var cellValue := board.grid[row][col];
      a[2 * i] := if cellValue == Stone(ourColor) then 1 else -1;
      a[2 * i + 1] := if cellValue == Stone(ourColor.Opposite()) then 1 else -1;
    }
    input := a[..];
  }

  /** Every input entry is 1 or -1. */
  lemma EncodeEntries(g: Grid, ourColor: Color)
    ensures forall x :: 0 <= x < InputSize ==> Encode(g, ourColor)[x] == 1 || Encode(g, ourColor)[x] == -1
  {
  }

  /**
   * The two channels of cell (row, col): the first says whether the token is
   * ours, the second whether it is the opponent's; they are never both 1, and
   * both are -1 exactly on an empty cell.
   */
  lemma EncodeChannels(g: Grid, ourColor: Color, row: int, col: int)
    requires InGrid(row, col)
    ensures var input, i := Encode(g, ourColor), IndexOf(row, col);
      && IsCell(i)
      && (input[2 * i] == 1 <==> g[row][col] == Stone(ourColor))
      && (input[2 * i + 1] == 1 <==> g[row][col] == Stone(ourColor.Opposite()))
      && !(input[2 * i] == 1 && input[2 * i + 1] == 1)
      && (input[2 * i] == -1 && input[2 * i + 1] == -1 <==> g[row][col] == Empty)
  {
    IndexCoords(row, col);
    var i := IndexOf(row, col);
    assert (2 * i) / 2 == i && (2 * i) % 2 == 0;
    assert (2 * i + 1) / 2 == i && (2 * i + 1) % 2 == 1;
    assert CellAt(g, i) == g[row][col];
    match g[row][col]
    case Empty =>
    case Stone(c) => assert c == ourColor || c == ourColor.Opposite();
  }

  /** Seen by the other colour, the two channels of every cell trade places. */
  lemma EncodeSwap(g: Grid, ourColor: Color)
    ensures forall i :: IsCell(i) ==>
      && Encode(g, ourColor.Opposite())[2 * i] == Encode(g, ourColor)[2 * i + 1]
      && Encode(g, ourColor.Opposite())[2 * i + 1] == Encode(g, ourColor)[2 * i]
  {
    forall i | IsCell(i)
      ensures Encode(g, ourColor.Opposite())[2 * i] == Encode(g, ourColor)[2 * i + 1]
      ensures Encode(g, ourColor.Opposite())[2 * i + 1] == Encode(g, ourColor)[2 * i]
    {
      assert (2 * i) / 2 == i && (2 * i) % 2 == 0;
      assert (2 * i + 1) / 2 == i && (2 * i + 1) % 2 == 1;
      assert ourColor.Opposite().Opposite() == ourColor;
    }
  }

  // ---------------------------------------------------------------------
  // Exploration

  /** The exploration rate at the start of a training session. */
  const Epsilon0: real := 0.1

  /** The exploration rate after `count` of `games` training games. */
  function Epsilon(count: nat, games: int): real
    requires games != 0
  {
    Epsilon0 * (1.0 - count as real / games as real)
  }

  /**
   * Whether a draw from [0, 1) selects a random move. With no training games
   * the rate is not a number (0 / 0) or minus infinity, and no draw is at most
   * that.
   */
  predicate Explores(draw: real, count: nat, games: int) {
    games != 0 && draw <= Epsilon(count, games)
  }

  /**
   * Over a session of `games` > 0 games epsilon falls linearly from 0.1 to 0,
   * strictly with each game, and below 0 once the session is over.
   */
  lemma EpsilonSchedule(games: int)
    requires games > 0
    ensures Epsilon(0, games) == Epsilon0
    ensures Epsilon(games, games) == 0.0
    ensures forall c, c' :: 0 <= c < c' ==> Epsilon(c', games) < Epsilon(c, games)
    ensures forall c :: c > games ==> Epsilon(c, games) < 0.0
  {
    assert games as real / games as real == 1.0;
    forall c: nat, c': nat | c < c'
      ensures Epsilon(c', games) < Epsilon(c, games)
    {
      DivideMonotone(c as real, c' as real, games as real);
    }
    forall c: nat | c > games
      ensures Epsilon(c, games) < 0.0
    {
      DivideMonotone(games as real, c as real, games as real);
    }
  }

  lemma DivideMonotone(x: real, y: real, d: real)
    requires x < y && d > 0.0
    ensures x / d < y / d
  {
  }

  // ---------------------------------------------------------------------
  // Greedy choice and the game outcome

  /** The first index of a greatest value: what a scan keeping strict improvements ends with. */
  function FirstMax(vs: seq<real>): (k: nat)
    requires |vs| > 0
    ensures k < |vs|
    ensures forall j :: 0 <= j < |vs| ==> vs[j] <= vs[k]
    ensures forall j :: 0 <= j < k ==> vs[j] < vs[k]
  {
    if |vs| == 1 then 0
    else
      var k := FirstMax(vs[..|vs| - 1]);
      if vs[|vs| - 1] > vs[k] then |vs| - 1 else k
  }

  /** The network's value of every child, from the point of view of `ourColor`. */
  function Values(children: seq<Board>, ourColor: Color, evaluate: seq<int> -> real): (vs: seq<real>)
    ensures |vs| == |children|
  {
    seq(|children|, i requires 0 <= i < |children| => evaluate(Encode(children[i].grid, ourColor)))
  }

  /** The index of the chosen child: the drawn one when exploring, else the first best one. */
  function ChosenIndex(children: seq<Board>, ourColor: Color, evaluate: seq<int> -> real, explore: bool, pick: nat): (k: nat)
    requires |children| > 0
    ensures k < |children|
  {
    if explore then pick % |children| else FirstMax(Values(children, ourColor, evaluate))
  }

  /** The training target of a finished game: 1 if we have more tokens, -1 if fewer, 0 on a tie. */
  function Outcome(g: Grid, ourColor: Color): (r: int)
    ensures r == 1 <==> Tally(g, Stone(ourColor)) > Tally(g, Stone(ourColor.Opposite()))
    ensures r == -1 <==> Tally(g, Stone(ourColor)) < Tally(g, Stone(ourColor.Opposite()))
    ensures r == 0 <==> Tally(g, Stone(ourColor)) == Tally(g, Stone(ourColor.Opposite()))
  {
    var winner := Winner(g);
    if winner == Some(ourColor) then 1
    else if winner == Some(ourColor.Opposite()) then -1
    else 0
  }

  /**
   * Scans the children in order, keeping a child only when its value is
   * strictly greater than the best so far: the result is the first child of
   * greatest value, and none when there are no children.
   */
  method BestChild(children: seq<Board>, ourColor: Color, evaluate: seq<int> -> real)
    returns (best: Option<nat>, bestValue: real)
    ensures best.None? <==> |children| == 0
    ensures best.Some? ==> best.value == FirstMax(Values(children, ourColor, evaluate))
    ensures best.Some? ==> bestValue == Values(children, ourColor, evaluate)[best.value]
  {
    ghost var values := Values(children, ourColor, evaluate);
    best := None;
    bestValue := 0.0;
    for i := 0 to |children|
      invariant i == 0 <==> best.None?
      invariant best.Some? ==> best.value == FirstMax(values[..i]) && bestValue == values[best.value]
    {
      var input := ExtractInput(children[i], ourColor);
      var value := evaluate(input);
      assert values[..i + 1][..i] == values[..i];
      if best.None? || value > bestValue {
        best := Some(i);
        bestValue := value;
      }
    }
    assert values[..|children|] == values;
  }

  // ---------------------------------------------------------------------
  // Training batches

  /** One training row: an input vector and the value it should produce. */
  datatype Sample = Sample(input: seq<int>, target: real)

  /** The input itself followed by its image under each map. */
  function SymmetriesOf(input: seq<int>, mappings: seq<Mapping>): (syms: seq<seq<int>>)
    requires |input| == InputSize
    ensures |syms| == |mappings| + 1 && syms[0] == input
    ensures forall k :: 0 <= k < |mappings| ==> syms[k + 1] == Permute(input, mappings[k])
    ensures forall k :: 0 <= k < |syms| ==> |syms[k]| == InputSize
  {
    if mappings == [] then [input]
    else SymmetriesOf(input, mappings[..|mappings| - 1]) + [Permute(input, mappings[|mappings| - 1])]
  }

  /** The batch learning from one input: every symmetry of it, each with the same target. */
  function Batch(input: seq<int>, target: real, mappings: seq<Mapping>): (batch: seq<Sample>)
    requires |input| == InputSize
    ensures |batch| == |mappings| + 1
    ensures forall k :: 0 <= k < |batch| ==> batch[k].target == target && |batch[k].input| == InputSize
    ensures batch[0].input == input
    ensures forall k :: 0 <= k < |mappings| ==> batch[k + 1].input == Permute(input, mappings[k])
  {
    var syms := SymmetriesOf(input, mappings);
    seq(|syms|, k requires 0 <= k < |syms| => Sample(syms[k], target))
  }

  /**
   * With the corrected maps a batch holds eight samples: the input itself and
   * its images under the seven other symmetries of the board, which keep the
   * two channels of each cell together.
   */
  lemma BatchCoversBoardSymmetries(input: seq<int>, target: real)
    requires |input| == InputSize
    ensures var batch := Batch(input, target, CorrectedMappings);
      && |batch| == 8
      && batch[0] == Sample(input, target)
      && forall k, i :: 0 <= k < |CorrectedMappings| && IsCell(i) ==>
           && IsCell(Apply(CorrectedMappings[k], i))
           && batch[k + 1].input[2 * i] == input[2 * Apply(CorrectedMappings[k], i)]
           && batch[k + 1].input[2 * i + 1] == input[2 * Apply(CorrectedMappings[k], i) + 1]
  {
    CorrectedIsComplete();
    var batch := Batch(input, target, CorrectedMappings);
    forall k, i | 0 <= k < |CorrectedMappings| && IsCell(i)
      ensures IsCell(Apply(CorrectedMappings[k], i))
      ensures batch[k + 1].input[2 * i] == input[2 * Apply(CorrectedMappings[k], i)]
      ensures batch[k + 1].input[2 * i + 1] == input[2 * Apply(CorrectedMappings[k], i) + 1]
    {
      PermuteKeepsChannels(input, CorrectedMappings[k], i);
    }
  }

  /**
   * With the maps as written, the fifth and sixth maps give the same image,
   * so every batch trains one image of the board twice.
   */
  lemma WrittenBatchRepeatsImage(input: seq<int>, target: real)
    requires |input| == InputSize
    ensures Batch(input, target, SymmetryMappings)[5] == Batch(input, target, SymmetryMappings)[6]
  {
    forall i | IsCell(i)
      ensures Apply(SymmetryMappings[4], i) == Apply(SymmetryMappings[5], i)
    {
      WrittenEntriesCoincide(i);
    }
    PermuteAgree(input, SymmetryMappings[4], SymmetryMappings[5]);
  }

  /** The input of a board holding nothing but our token on cell 1 = (0, 1). */
  function LoneToken(): (input: seq<int>)
    ensures |input| == InputSize
  {
    seq(InputSize, x => if x == 2 then 1 else -1)
  }

  /**
   * With the maps as written, a batch can miss an image the corrected maps
   * give: for the board holding only our token on (0, 1), the image under the
   * quarter turn (row, col) to (7 - col, row) is in the corrected batch and in
   * no sample of the written one.
   */
  lemma WrittenBatchMissesRotation(target: real)
    ensures Batch(LoneToken(), target, CorrectedMappings)[5].input == Permute(LoneToken(), CorrectedMappings[4])
    ensures forall k :: 0 <= k < |SymmetryMappings| + 1 ==>
      Batch(LoneToken(), target, SymmetryMappings)[k].input != Permute(LoneToken(), CorrectedMappings[4])
  {
    var u := LoneToken();
    var rotated := Permute(u, CorrectedMappings[4]);
    PermuteKeepsChannels(u, CorrectedMappings[4], 15);
    ApplyIsSym(CorrectedMappings[4], 15);
    assert rotated[30] == 1;
    var batch := Batch(u, target, SymmetryMappings);
    forall k | 0 <= k < |SymmetryMappings| + 1
      ensures batch[k].input != rotated
    {
      if k == 0 {
        assert batch[k].input[30] == -1;
      } else {
        var m := SymmetryMappings[k - 1];
        PermuteKeepsChannels(u, m, 15);
        ApplyIsSym(m, 15);
        ApplyIsSym(m, 1);
        WrittenMissesRotation();
        SymsDifferAtFifteen(SymOf(m), Rotation);
        assert batch[k].input[30] == -1;
      }
    }
  }

  /**
   * The body of the loop over the maps in `generateSymmetries`: a new
   * vector whose two channels of each cell are copied from the mapped cell.
   */
  method PermuteInput(boardInput: seq<int>, mapping: Mapping) returns (symmetry: seq<int>)
    requires |boardInput| == InputSize
    ensures symmetry == Permute(boardInput, mapping)
  {
    var a := new int[InputSize];
    for i := 0 to CellCount
      invariant forall x :: 0 <= x < 2 * i ==> a[x] == Permute(boardInput, mapping)[x]
    {
      var inputIdx := i * 2;
      PermuteKeepsChannels(boardInput, mapping, i);
      var mappedIdx := Apply(mapping, i) * 2;
      for j := 0 to 2
        invariant forall x :: 0 <= x < inputIdx + j ==> a[x] == Permute(boardInput, mapping)[x]
      {
        a[inputIdx + j] := boardInput[mappedIdx + j];
      }
    }
    symmetry := a[..];
  }

  // ---------------------------------------------------------------------
  // The player

  class NeuralNetworkPlayer {
    /** The input of the board chosen on our previous turn of a learning game. */
    var previousBoardInput: Option<seq<int>>
    /** Whether the current game is a training game. */
    var learn: bool
    /** The number of games of the training session, over which epsilon falls to 0. */
    const numberOfLearningGames: int
    /** The number of games finished so far. */
    var learningGameCount: nat
    /** The maps giving the symmetries of an input other than itself. */
    const symmetryMappings: seq<Mapping>
    /** Every training batch handed to the network so far, oldest first. */
    var batches: seq<seq<Sample>>

    ghost predicate Valid()
      reads this
    {
      && symmetryMappings == CorrectedMappings
      && (previousBoardInput.Some? ==> |previousBoardInput.value| == InputSize)
    }

    constructor(numberOfLearningGames: int)
      ensures Valid() && this.numberOfLearningGames == numberOfLearningGames
      ensures previousBoardInput == None && learn && learningGameCount == 0 && batches == []
    {
      this.numberOfLearningGames := numberOfLearningGames;
      previousBoardInput := None;
      learn := true;
      learningGameCount := 0;
      symmetryMappings := CorrectedMappings;
      batches := [];
    }

    method SetLearn(learn: bool)
      modifies this
      ensures this.learn == learn
      ensures previousBoardInput == old(previousBoardInput) && learningGameCount == old(learningGameCount)
      ensures batches == old(batches)
    {
      this.learn := learn;
    }

    /** The input and its images under every symmetry map, each filled cell by cell. */
    method GenerateSymmetries(boardInput: seq<int>) returns (result: seq<seq<int>>)
      requires Valid() && |boardInput| == InputSize
      ensures result == SymmetriesOf(boardInput, symmetryMappings)
    {
      result := [boardInput];
      for k := 0 to |symmetryMappings|
        invariant result == SymmetriesOf(boardInput, symmetryMappings[..k])
      {
        var mapping := symmetryMappings[k];
        var symmetry := PermuteInput(boardInput, mapping);
        assert symmetryMappings[..k + 1][..k] == symmetryMappings[..k];
        assert symmetryMappings[..k + 1][k] == mapping;
        result := result + [symmetry];
      }
      assert symmetryMappings[..|symmetryMappings|] == symmetryMappings;
    }

    /** Hands the network one batch: every symmetry of `boardInput` with target `outcome`. */
    method LearnFromBoard(boardInput: seq<int>, outcome: real)
      requires Valid() && |boardInput| == InputSize
      modifies this
      ensures batches == old(batches) + [Batch(boardInput, outcome, symmetryMappings)]
      ensures previousBoardInput == old(previousBoardInput) && learn == old(learn)
      ensures learningGameCount == old(learningGameCount)
    {
      var symmetries := GenerateSymmetries(boardInput);
      var trainingSet := [];
      for k := 0 to |symmetries|
        invariant trainingSet == seq(k, j requires 0 <= j < k => Sample(symmetries[j], outcome))
      {
        trainingSet := trainingSet + [Sample(symmetries[k], outcome)];
      }
      batches := batches + [trainingSet];
    }
  
    /**
     * Chooses a child of `board` for its side to move: a random one (`pick`)
     * when learning and the draw is at most epsilon, otherwise the first child
     * of greatest value. When learning, the previous input is taught the value
     * of the chosen child and the chosen child's input becomes the previous
     * one. The chosen child is returned with the turn handed to the opponent.
     */
    method PlayTurn(board: Board, draw: real, pick: nat, evaluate: seq<int> -> real) returns (result: Option<Board>)
      requires Valid()
      modifies this
      ensures Valid() && learn == old(learn) && learningGameCount == old(learningGameCount)
      ensures result.None? <==> |Children(board)| == 0
      ensures result.None? || !learn ==> previousBoardInput == old(previousBoardInput) && batches == old(batches)
      ensures result.Some? ==>
        var children := Children(board);
        var k := ChosenIndex(children, board.turn, evaluate, learn && Explores(draw, learningGameCount, numberOfLearningGames), pick);
        && result.value.grid == children[k].grid
        && result.value.turn == board.turn.Opposite()
        && (learn ==> previousBoardInput == Some(Encode(children[k].grid, board.turn)))
        && (learn && old(previousBoardInput).None? ==> batches == old(batches))
        && (learn && old(previousBoardInput).Some? ==>
              batches == old(batches) + [Batch(old(previousBoardInput).value, Values(children, board.turn, evaluate)[k], symmetryMappings)])
    {
      var ourColor := board.turn;
      var bestBoard: Option<Board> := None;
      var bestValue: real := 0.0;
      var children := Children(board);
      ghost var k: nat := 0;
      if Explores(draw, learningGameCount, numberOfLearningGames) && |children| > 0 && learn {
        var index := pick % |children|;
        k := index;
        bestBoard := Some(children[index]);
        var input := ExtractInput(children[index], ourColor);
        bestValue := evaluate(input);
      } else {
        var best;
        best, bestValue := BestChild(children, ourColor, evaluate);
        if best.Some? {
          k := best.value;
          bestBoard := Some(children[best.value]);
        }
      }
      if bestBoard.Some? {
        if learn {
          if previousBoardInput.Some? {
            LearnFromBoard(previousBoardInput.value, bestValue);
          }
          var input := ExtractInput(bestBoard.value, ourColor);
          previousBoardInput := Some(input);
        }
        ChildrenAreMoves(board);
        assert children[k] in children;
        result := Some(Board(bestBoard.value.grid, bestBoard.value.turn.Opposite()));
      } else {
        result := None;
      }
    }

    /**
     * Ends a game: the previous input, if a move of this game recorded one,
     * is taught the outcome (1 for a win, -1 for a loss, 0 for a tie); then
     * the previous input is cleared and one more game is counted.
     */
    method OnGameOver(board: Board, ourColor: Color)
      requires Valid()
      modifies this
      ensures Valid() && previousBoardInput == None && learn == old(learn)
      ensures learningGameCount == old(learningGameCount) + 1
      ensures old(previousBoardInput).None? ==> batches == old(batches)
      ensures old(previousBoardInput).Some? ==>
        batches == old(batches) + [Batch(old(previousBoardInput).value, Outcome(board.grid, ourColor) as real, symmetryMappings)]
    {
      var outcome: int;
      var winner := Winner(board.grid);
      if winner == Some(ourColor) {
        outcome := 1;
      } else if winner == Some(ourColor.Opposite()) {
        outcome := -1;
      } else {
        outcome := 0;
      }
      if previousBoardInput.Some? {
        LearnFromBoard(previousBoardInput.value, outcome as real);
      }
      previousBoardInput := None;
      learningGameCount := learningGameCount + 1;
    }

    /**
     * The end of a game as written: the previous input is taught the outcome
     * unconditionally, so a game in which no learning move recorded an input
     * dereferences a missing array.
     */
    method OnGameOverAsWritten(board: Board, ourColor: Color)
      requires Valid() && previousBoardInput.Some?
      modifies this
      ensures Valid() && previousBoardInput == None && learn == old(learn)
      ensures learningGameCount == old(learningGameCount) + 1
      ensures batches == old(batches) + [Batch(old(previousBoardInput).value, Outcome(board.grid, ourColor) as real, symmetryMappings)]
    {
      var outcome: int;
      var winner := Winner(board.grid);
      if winner == Some(ourColor) {
        outcome := 1;
      } else if winner == Some(ourColor.Opposite()) {
        outcome := -1;
      } else {
        outcome := 0;
      }
      LearnFromBoard(previousBoardInput.value, outcome as real);
      previousBoardInput := None;
      learningGameCount := learningGameCount + 1;
    }
  }

  /**
   * A player planned for zero training games never explores: epsilon is then
   * 0 / 0 (not a number) before the first game and minus infinity after it,
   * and no draw is at most either. Whatever the draw and the pick, it plays
   * the first child of greatest value.
   */
  method UntrainedPlayerIsGreedy(player: NeuralNetworkPlayer, board: Board, draw: real, pick: nat, evaluate: seq<int> -> real)
    returns (move: Option<Board>)
    requires player.Valid() && player.numberOfLearningGames == 0
    modifies player
    ensures move.None? <==> |Children(board)| == 0
    ensures move.Some? ==>
      var children := Children(board);
      var values := Values(children, board.turn, evaluate);
      exists k :: 0 <= k < |children| && move.value.grid == children[k].grid
        && (forall j :: 0 <= j < |children| ==> values[j] <= values[k])
        && (forall j :: 0 <= j < k ==> values[j] < values[k])
  {
    move := player.PlayTurn(board, draw, pick, evaluate);
  }

  /**
   * A game played with learning switched off leaves no previous input, so
   * the written end-of-game step cannot be taken: its requirement that an
   * input be present fails for the player returned here.
   */
  method EvaluationGameLeavesNoInput(board: Board, draw: real, pick: nat, evaluate: seq<int> -> real)
    returns (player: NeuralNetworkPlayer)
    ensures player.Valid() && !player.learn && player.previousBoardInput.None?
  {
    player := new NeuralNetworkPlayer(100);
    player.SetLearn(false);
    var move := player.PlayTurn(board, draw, pick, evaluate);
  }
}
