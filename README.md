# SimpleOthelloNet core in Dafny

This project models the game and player core of SimpleOthelloNet, a Reversi (Othello) program. It has:

- a board that generates its legal children;
- a minimax / alpha-beta search with a fixed-depth player that uses Binkley's positional heuristic;
- a temporal-difference (TD) learning player. It picks moves epsilon-greedily over a neural network's evaluation and trains the network on the eight symmetries of each position.

The modules:

- `Reversi` (reversi.dfy) holds the rules as pure functions on board values `Board(grid, turn)`:
  - the eight-direction ray scan;
  - `placeToken`'s direction-by-direction sweep (`Sweep`) and its declarative effect (`Partial`);
  - the row-major list of children;
  - tallies and the winner.
- `ReversiFacts` (reversi_facts.dfy) proves facts about those rules:
  - token counts after a move;
  - the children are exactly the legal moves, one per legal cell in row-major order, all distinct;
  - the opening position.
- `ReversiBoards` (reversi_board.dfy) is the board class. It keeps the grid in an `array2<Cell>` and updates it in place. Each method is proved against the pure functions.
- `Search` (search.dfy) is the generic search over any node type with a `children` function and an integer heuristic:
  - the two searches are specified as recursive functions;
  - the methods are proved equal to those functions;
  - the key theorem is that alpha-beta with the infinite window returns exactly minimax's node and value.
- `MinimaxPlayers` (minimax_player.dfy) holds the naive and Binkley heuristics, as loops proved against functions, and the alpha-beta player.
- `Symmetries` (symmetry.dfy) holds the index permutations used for data augmentation. Each permutation is identified with an element of the symmetry group of the square.
- `NeuralNetworkPlayers` (td_player.dfy) holds the TD player:
  - the input encoding;
  - the epsilon schedule;
  - move choice;
  - the game outcome;
  - the training batches, built from all symmetries.

The player models follow the code as written:

- The minimax player returns the chosen child without handing the turn over. Only the TD player swaps the turn of its chosen child.
- A player without a legal move ends the game; there is no pass.
- The TD player's list of symmetry maps, as written, does not give the eight symmetries its doc comment promises ("all 8 symmetries", src/simpleothellonet/NeuralNetworkPlayer.java:233). See "## Findings".

## Model

| member | source | states |
|---|---|---|
| Reversi.Color.Opposite | src/simpleothellonet/ReversiBoard.java:21-23 | the opposite colour is never the colour itself |
| Reversi.OppositeIsInvolution | src/simpleothellonet/ReversiBoard.java:21-23 | taking the opposite twice gives the colour back, so swapping the turn twice restores it |
| Reversi.ScanFrom | src/simpleothellonet/ReversiBoard.java:220-241 | a line count is 0 or at least the cells already scanned, and never more than 6 |
| Reversi.ScanSound | src/simpleothellonet/ReversiBoard.java:228-240 | a positive count k means k opponent tokens followed by a friendly token, all on the grid |
| Reversi.ScanComplete | src/simpleothellonet/ReversiBoard.java:228-240 | when k opponent tokens are closed by a friendly token, the scan returns exactly k |
| Reversi.LineLengthFlanks | src/simpleothellonet/ReversiBoard.java:220-241 | the line length is positive exactly when the direction holds a flanked line, and it is that line's length |
| Reversi.RaysDisjoint | src/simpleothellonet/ReversiBoard.java:148-162 | lines in two different directions from the same cell never share a cell |
| Reversi.PartialKeepsLine | src/simpleothellonet/ReversiBoard.java:148-162 | flipping the lines of earlier directions does not change the line measured in a later direction |
| Reversi.SweepIsPartial | src/simpleothellonet/ReversiBoard.java:146-162 | the direction-by-direction sweep equals the declarative result: the mover's token on every flanked cell of the first n directions, and on the target once some line flips |
| Reversi.SweepRound | src/simpleothellonet/ReversiBoard.java:148-162 | each round measures on the swept grid the same line as on the original grid, and the move becomes legal when a line is found |
| Reversi.PlaceEffect | src/simpleothellonet/ReversiBoard.java:136-164 | an illegal move leaves the grid unchanged; a legal one puts the mover's token on the target and on every flanked cell of every direction, and changes nothing else |
| ReversiFacts.TallySum | src/simpleothellonet/ReversiBoard.java:188-196 | black, white and empty counts add up to 64 |
| ReversiFacts.MoveTally | src/simpleothellonet/ReversiBoard.java:136-164 | a legal move flips f >= 1 opponent tokens; the mover gains 1 + f tokens, the opponent loses f, and one empty cell fewer remains |
| ReversiFacts.ChildrenAreMoves | src/simpleothellonet/ReversiBoard.java:110-126 | a board is a child exactly when it results from a legal move, and every child keeps the parent's turn |
| ReversiFacts.LegalCellsOrdered | src/simpleothellonet/ReversiBoard.java:113-122 | the legal cells are listed in row-major order (row by row, left to right within a row), and a cell is listed exactly when a move there is legal |
| ReversiFacts.ChildrenFollowLegalCells | src/simpleothellonet/ReversiBoard.java:109-125 | the children list has as many entries as there are legal cells, and child i is the board after the move at the i-th legal cell in row-major order |
| ReversiFacts.MovesDiffer | src/simpleothellonet/ReversiBoard.java:136-164 | legal moves at two different cells lead to different grids |
| ReversiFacts.LegalCellsExactly | src/simpleothellonet/ReversiBoard.java:113-122 | a cell on the board is among the legal cells if and only if the side to move may play there |
| ReversiFacts.ChildrenDistinct | src/simpleothellonet/ReversiBoard.java:109-125 | no two children are equal, so the list holds one board per legal cell |
| ReversiFacts.InitialTally | src/simpleothellonet/ReversiBoard.java:72-86 | the start position holds 2 black tokens, 2 white tokens and 60 empty cells |
| ReversiFacts.InitialLegal | src/simpleothellonet/ReversiBoard.java:72-86 | Black's legal opening cells are exactly (2,3), (3,2), (4,5) and (5,4) |
| ReversiFacts.InitialCaptures | src/simpleothellonet/ReversiBoard.java:136-164 | each opening move flips exactly one token |
| ReversiFacts.InitialChildren | src/simpleothellonet/ReversiBoard.java:110-126 | the start position has four children, in row-major order of the four opening cells |
| ReversiBoards.ReversiBoard.Initial | src/simpleothellonet/ReversiBoard.java:72-86 | a fresh board holding the start position with Black to move and no parent |
| ReversiBoards.ReversiBoard.Copy | src/simpleothellonet/ReversiBoard.java:60-67 | a fresh grid with the same cells and turn as the parent, which it records |
| ReversiBoards.ReversiBoard.GetValue | src/simpleothellonet/ReversiBoard.java:178-180 | the content of cell (col, row) |
| ReversiBoards.ReversiBoard.SwapTurn | src/simpleothellonet/ReversiBoard.java:166-168 | the turn becomes the opposite colour and the grid is untouched |
| ReversiBoards.ReversiBoard.CountOpponentLineLength | src/simpleothellonet/ReversiBoard.java:220-241 | the loop returns the line length of the pure scan |
| ReversiBoards.ReversiBoard.FlipLine | src/simpleothellonet/ReversiBoard.java:253-258 | the new grid is the old one with the first count cells of the ray turned over |
| ReversiBoards.ReversiBoard.CaptureLine | src/simpleothellonet/ReversiBoard.java:155-161 | the flanked line is flipped and the mover's token put on the target |
| ReversiBoards.ReversiBoard.SweepDirection | src/simpleothellonet/ReversiBoard.java:149-161 | one direction advances the grid by one round of the sweep; legality so far grows exactly when that direction flanks |
| ReversiBoards.ReversiBoard.PlaceToken | src/simpleothellonet/ReversiBoard.java:136-164 | the result is whether the move is legal, and the new grid is the grid after the move (unchanged if the cell is occupied or nothing flips) |
| ReversiBoards.ReversiBoard.ChildAt | src/simpleothellonet/ReversiBoard.java:116-121 | a fresh child board exactly when the cell is a legal move |
| ReversiBoards.ReversiBoard.RowChildrenOf | src/simpleothellonet/ReversiBoard.java:115-123 | fresh boards, one per legal cell of the row, left to right |
| ReversiBoards.ReversiBoard.GetChildren | src/simpleothellonet/ReversiBoard.java:110-126 | fresh boards whose values are the children list, in row-major order |
| ReversiBoards.ReversiBoard.GetWinner | src/simpleothellonet/ReversiBoard.java:187-205 | Black iff more black tokens, White iff more white tokens, none iff equal counts |
| Search.Max | src/simpleothellonet/Minimax.java:77 | the larger of two extended integers |
| Search.Min | src/simpleothellonet/Minimax.java:79 | the smaller of two extended integers |
| Search.CutAt | src/simpleothellonet/Minimax.java:81-83 | the child at which the window closes lies among the children still to examine |
| Search.Minimax | src/simpleothellonet/Minimax.java:23-43 | the loop returns the minimax result; at depth 0 or a leaf, no node and the heuristic value |
| Search.AlphaBeta | src/simpleothellonet/Minimax.java:58-86 | the loop with its early exit returns the alpha-beta result; at depth 0 or a leaf, no node and the heuristic value |
| Search.MinimaxShape | src/simpleothellonet/Minimax.java:28-42 | every minimax value is finite, and the node is missing exactly at depth 0 or a leaf |
| Search.MinimaxLoopMono | src/simpleothellonet/Minimax.java:35-41 | the loop never makes the best value worse for the layer |
| Search.MinimaxIsFirstBest | src/simpleothellonet/Minimax.java:35-42 | the chosen node is some child k carrying its own value; no child is strictly better and every earlier child is strictly worse |
| Search.AlphaBetaExaminesPrefix | src/simpleothellonet/Minimax.java:70-84 | children after the cut child are never examined: changing them does not change the result |
| Search.AlphaBetaSoft | src/simpleothellonet/Minimax.java:58-86 | fail-soft: a minimax value at or below alpha gives an alpha-beta value between it and alpha, at or above beta one between beta and it, and strictly inside the window the same node and value |
| Search.AlphaBetaLoopSoft | src/simpleothellonet/Minimax.java:70-85 | the same fail-soft relation for the loop over the children |
| Search.AlphaBetaIsMinimax | src/simpleothellonet/Minimax.java:23-86 | with the infinite window, alpha-beta returns exactly minimax's node and value |
| MinimaxPlayers.WeightedSum | src/simpleothellonet/MinimaxPlayer.java:88-96 | the double loop sums weights, plus for the side to move and minus for the opponent |
| MinimaxPlayers.SimpleHeuristic | src/simpleothellonet/MinimaxPlayer.java:47-62 | the side to move's tokens minus the opponent's, between -64 and 64 |
| MinimaxPlayers.BinkleyHeuristic | src/simpleothellonet/MinimaxPlayer.java:72-98 | the weighted sum over Binkley's table, without the noise |
| MinimaxPlayers.SimpleIsDifference | src/simpleothellonet/MinimaxPlayer.java:47-62 | the naive score is the token difference and lies in -64..64 |
| MinimaxPlayers.SwapNegates | src/simpleothellonet/MinimaxPlayer.java:50-59 | handing the turn to the other side negates both heuristics |
| MinimaxPlayers.WeightsSymmetric | src/simpleothellonet/MinimaxPlayer.java:76-85 | Binkley's table is unchanged by reversing rows, reversing columns and transposing |
| MinimaxPlayers.InitialChildrenSimple | src/simpleothellonet/MinimaxPlayer.java:47-62 | after any opening move the naive score of the mover is 3 |
| MinimaxPlayers.SearchTreeKeepsTurn | src/simpleothellonet/Minimax.java:60-71 | every board the search visits has the root's side to move |
| MinimaxPlayers.MinimaxPlayer.constructor | src/simpleothellonet/MinimaxPlayer.java:25-27 | the player keeps its search depth |
| MinimaxPlayers.MinimaxPlayer.PlayTurn | src/simpleothellonet/MinimaxPlayer.java:30-38 | the move is minimax's choice under Binkley's heuristic; none iff depth 0 or no children; otherwise a child of the board with the turn not handed over |
| Symmetries.ApplyIsSym | src/simpleothellonet/NeuralNetworkPlayer.java:259-283 | every composition of the flips acts on cells as one element of the symmetry group of the square |
| Symmetries.FlipsAreInvolutions | src/simpleothellonet/NeuralNetworkPlayer.java:262-278 | each of the three flips maps cells to cells and undoes itself |
| Symmetries.WrittenEntriesCoincide | src/simpleothellonet/NeuralNetworkPlayer.java:281-282 | the fifth and sixth maps as written are the same permutation, (row, col) to (col, 7 - row) |
| Symmetries.WrittenMissesRotation | src/simpleothellonet/NeuralNetworkPlayer.java:281-282 | as written, no map (and not the identity) gives the quarter turn (row, col) to (7 - col, row) |
| Symmetries.CorrectedIsComplete | src/simpleothellonet/NeuralNetworkPlayer.java:281-282 | the corrected seven maps are non-identity and pairwise distinct, and with the identity they cover all eight symmetries |
| Symmetries.CorrectedMapsDistinct | src/simpleothellonet/NeuralNetworkPlayer.java:281-282 | the corrected maps move cell 1 to seven distinct cells, none of them cell 1, so they are seven distinct maps, none the identity |
| Symmetries.SymInjective | src/simpleothellonet/NeuralNetworkPlayer.java:262-278 | each of the eight symmetries of the square sends distinct cells to distinct cells |
| Symmetries.ApplyInjective | src/simpleothellonet/NeuralNetworkPlayer.java:262-282 | every map built from the flips sends distinct cells to distinct cells, so each is a permutation of the 64 cells |
| Symmetries.PermuteAgree | src/simpleothellonet/NeuralNetworkPlayer.java:243-248 | two maps that agree on every cell give the same permuted input |
| Symmetries.PermuteKeepsChannels | src/simpleothellonet/NeuralNetworkPlayer.java:243-248 | both channels of cell i come from the mapped cell, together and in order |
| Symmetries.PermuteTwice | src/simpleothellonet/NeuralNetworkPlayer.java:262-278 | applying a flip to an input twice gives the input back |
| NeuralNetworkPlayers.ExtractInput | src/simpleothellonet/NeuralNetworkPlayer.java:200-211 | the loop fills exactly the encoding of the board |
| NeuralNetworkPlayers.EncodeEntries | src/simpleothellonet/NeuralNetworkPlayer.java:207-208 | every entry is 1 or -1 |
| NeuralNetworkPlayers.EncodeChannels | src/simpleothellonet/NeuralNetworkPlayer.java:203-209 | channel 0 says "our token", channel 1 "opponent's token"; never both 1, both -1 exactly on an empty cell |
| NeuralNetworkPlayers.EncodeSwap | src/simpleothellonet/NeuralNetworkPlayer.java:207-208 | seen by the other colour, the two channels of each cell trade places |
| NeuralNetworkPlayers.EpsilonSchedule | src/simpleothellonet/NeuralNetworkPlayer.java:228-230 | epsilon starts at 0.1, reaches 0 after the planned number of games, strictly decreases with each game and is negative afterwards |
| NeuralNetworkPlayers.UntrainedPlayerIsGreedy | src/simpleothellonet/NeuralNetworkPlayer.java:122-134 | a player planned for zero training games never explores, whatever the draw and the pick: it returns none iff there are no children, otherwise a child of greatest value with every earlier child strictly worse |
| NeuralNetworkPlayers.FirstMax | src/simpleothellonet/NeuralNetworkPlayer.java:127-133 | the index of a greatest value, with every earlier value strictly smaller |
| NeuralNetworkPlayers.BestChild | src/simpleothellonet/NeuralNetworkPlayer.java:126-133 | the greedy scan returns none iff there are no children, otherwise the first child of greatest value, with that value |
| NeuralNetworkPlayers.Outcome | src/simpleothellonet/NeuralNetworkPlayer.java:162-170 | 1 iff we have more tokens, -1 iff fewer, 0 iff equal counts |
| NeuralNetworkPlayers.SymmetriesOf | src/simpleothellonet/NeuralNetworkPlayer.java:238-253 | the input itself followed by its image under each map, in order, each of input size |
| NeuralNetworkPlayers.Batch | src/simpleothellonet/NeuralNetworkPlayer.java:183-190 | one sample per symmetry, each with the given target: sample 0 holds the input and sample k + 1 its image under map k |
| NeuralNetworkPlayers.WrittenBatchRepeatsImage | src/simpleothellonet/NeuralNetworkPlayer.java:183-190 | with the maps as written, samples 5 and 6 of every batch are the same, so one image is trained twice |
| NeuralNetworkPlayers.WrittenBatchMissesRotation | src/simpleothellonet/NeuralNetworkPlayer.java:183-190 | with the maps as written, the batch of a board holding only our token on (0, 1) contains no sample equal to its image under the quarter turn (row, col) to (7 - col, row), which the corrected batch holds |
| NeuralNetworkPlayers.BatchCoversBoardSymmetries | src/simpleothellonet/NeuralNetworkPlayer.java:232-253 | with the corrected maps a batch has eight samples: the input and its seven images, each keeping a cell's two channels together |
| NeuralNetworkPlayers.NeuralNetworkPlayer.constructor | src/simpleothellonet/NeuralNetworkPlayer.java:97-111 | a learning player with no previous input, no games counted, no batches and the corrected symmetry maps |
| NeuralNetworkPlayers.NeuralNetworkPlayer.SetLearn | src/simpleothellonet/NeuralNetworkPlayer.java:150-152 | sets the learning flag and changes nothing else |
| NeuralNetworkPlayers.PermuteInput | src/simpleothellonet/NeuralNetworkPlayer.java:242-250 | the cell loop fills exactly the input seen through one map, both channels of each cell copied from the mapped cell |
| NeuralNetworkPlayers.NeuralNetworkPlayer.GenerateSymmetries | src/simpleothellonet/NeuralNetworkPlayer.java:238-253 | the nested loops produce exactly the input followed by its symmetric images |
| NeuralNetworkPlayers.NeuralNetworkPlayer.LearnFromBoard | src/simpleothellonet/NeuralNetworkPlayer.java:183-190 | exactly one batch, every symmetry with the same target, is handed to the network; nothing else changes |
| NeuralNetworkPlayers.NeuralNetworkPlayer.PlayTurn | src/simpleothellonet/NeuralNetworkPlayer.java:113-148 | none iff no children; otherwise the drawn child when learning and exploring, else the first best one, returned with the turn swapped; when learning, the previous input learns the chosen child's value and is replaced by that child's input |
| NeuralNetworkPlayers.NeuralNetworkPlayer.OnGameOver | src/simpleothellonet/NeuralNetworkPlayer.java:161-177 | the previous input, if any, learns the outcome; the input is then cleared and one more game counted |
| NeuralNetworkPlayers.NeuralNetworkPlayer.OnGameOverAsWritten | src/simpleothellonet/NeuralNetworkPlayer.java:161-177 | the end of a game as written, which can only proceed when a previous input exists |
| NeuralNetworkPlayers.EvaluationGameLeavesNoInput | src/simpleothellonet/NeuralNetworkPlayer.java:136-145 | a move made with learning off leaves no previous input, so the written end-of-game step fails |

## Left out

- The neural network itself (the Neuroph multilayer perceptron, its backpropagation rule, learning rate and weight initialisation) is not modelled. Evaluation is a function parameter `evaluate` from input vectors to reals, and learning is the record `batches` of every training batch handed to the network.
- evaluateBoard is not modelled separately; it is `evaluate` applied to the encoding.
- saveNetworkToFile, the file name and loading a network from a file are left out (file I/O).
- Random numbers are parameters:
  - the epsilon-greedy draw is `draw`;
  - the random child is `pick`, taken modulo the number of children.
- MinimaxPlayers.BinkleyHeuristic: does not add the Gaussian noise (standard deviation 10) that the source adds, because it comes from a shared random generator; the model is the noise-free weighted sum.
- Heuristic values are integers and network values are reals, instead of IEEE doubles. The search's infinite start values are the extended integers `NegInf` and `PosInf`. NaN is not modelled.
- NeuralNetworkPlayers.NeuralNetworkPlayer.PlayTurn: starts the greedy scan with "no child yet" rather than a value of minus infinity. The two differ exactly when the first child's value is NaN or no child's value exceeds minus infinity; reals can express neither.
- NeuralNetworkPlayers.Explores: states the zero-games case (0/0 or k/0, never at least a draw) directly instead of computing with NaN and infinities.
- Search depths are natural numbers. A negative plyDepth, which the source would search until no children remain, is not modelled.
- Java's `double` learningGameCount is a natural number, because it only counts games.
- The players take and return board values rather than ReversiBoard objects:
  - the only in-place change a player makes, swapping the turn of a freshly generated child, is exact on values;
  - aliasing between the chosen child and other boards is therefore not captured;
  - the board class and its in-place methods are modelled separately.
- MinimaxPlayers.MinimaxPlayer.PlayTurn: does not model the list of children that the source computes and then ignores.
- ReversiBoard.getParent, getTurnColor, getGridSize and toString are left out. The parent is kept as a ghost field, and the turn and size are fields or constants.
- The Node and ReversiPlayer interfaces are represented by the generic children function of `Search` and by the two player classes.
- NetworkTrainer, Main and UserPlayer are not part of this model. These are the game driver, the command line and console input.
- NeuralNetworkPlayers.NeuralNetworkPlayer.constructor: stores the corrected symmetry list `Symmetries.CorrectedMappings` instead of the list generateSymmetryMappings builds, `Symmetries.SymmetryMappings` (see "## Findings").
- NeuralNetworkPlayers.NeuralNetworkPlayer.GenerateSymmetries: yields the images under the corrected list, so it does not show the duplicated image of the list as written; `NeuralNetworkPlayers.WrittenBatchRepeatsImage` states that separately.
- NeuralNetworkPlayers.NeuralNetworkPlayer.LearnFromBoard: trains on the corrected batch; the batch as written is `NeuralNetworkPlayers.Batch` over `Symmetries.SymmetryMappings`.

## Findings

| source | as written | input that shows it | evidently intended | confidence | as-written member | corrected member |
|---|---|---|---|---|---|---|
| src/simpleothellonet/NeuralNetworkPlayer.java:281-282 | the seven maps are hFlip, vFlip, dFlip, hFlip∘vFlip, dFlip∘vFlip, hFlip∘dFlip and hFlip∘vFlip∘dFlip; dFlip∘vFlip and hFlip∘dFlip are the same map, (row, col) to (col, 7 - row), so the list misses the quarter turn (row, col) to (7 - col, row) | cell 1 = (0, 1): both maps send it to cell 15, and no map sends it to cell 48, where the quarter turn (row, col) to (7 - col, row) puts it | the eight distinct symmetries of the board ("all 8 symmetries", line 233); keeping hFlip∘dFlip and replacing the fifth entry, dFlip∘vFlip, by vFlip∘dFlip gives them | not executed; high | Symmetries.WrittenMissesRotation | Symmetries.CorrectedIsComplete |
| src/simpleothellonet/NeuralNetworkPlayer.java:173 | onGameOver always calls learnFromBoard(previousBoardInput, outcome), and generateSymmetries then reads that array (line 247) | a game played after setLearn(false): playTurn never records an input (lines 137-143), so previousBoardInput is still null at the end of the game, and the read throws a NullPointerException | learn from the final outcome only when an input was recorded | not executed; medium | NeuralNetworkPlayers.NeuralNetworkPlayer.OnGameOverAsWritten | NeuralNetworkPlayers.NeuralNetworkPlayer.OnGameOver |
