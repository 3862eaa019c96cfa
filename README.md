# Othello engine (RodneyShag/Othello) in Dafny

This project models the game engine of a Java Othello program: the board with
its two players, the legal-move rules, placing and flipping disks, the
Command/CommandManager undo-redo history, the bitboard helpers, the board
evaluators of `Utility`, the comparator that orders boards, and the two
computer players, minimax and alpha-beta. It proves properties of each part.

The model has two layers.

* **Values.** The modules `Grids`, `Rules`, `Search`, `Ordering`, `Utilities`
  and `History` state the rules as functions on board values (`Grid`,
  `BoardState`, `Stacks`). A board value holds the tile colours, both players'
  colour, flag, score and move list, the side to move, the turn counter, the
  game-ended flag and the winner. The modules `FlipProperties`,
  `BoardProperties`, `MoveProperties` and `CaptureSteps` prove lemmas about
  those functions.
* **Objects.** `GameBoard.Board` (with an `array2<Color>` of tiles),
  `GameBoard.Player`, `Commands.Command`, `Commands.CommandManager`,
  `Strategies.MinimaxStrategy` and `Strategies.AlphaBetaStrategy` are classes.
  Their methods update fields in place, with the same loops and branches as
  the Java code. Each method is proved to leave exactly the state that the
  matching function computes from the state before (`State() ==
  Rules.PlaceDisk(old(State()), pos, color)` and so on).

Modelling choices that follow the code:

* A `Disk` is folded into its colour.
* Java's `null` colour (from `getOppositeColor(NONE)`) and the `null` winner
  are `Option` values.
* `flipCaptures`' eight straight-line calls become a walk over the list of
  eight directions, in the same order.
* `getOppositeColor` exists twice in the source, in `Functions.java` and
  `Board.java`; both are `Colors.OppositeColor`.
* Java's byte arithmetic in `BitFunctions` is modelled explicitly: a byte is a
  `bv8`, a long a `bv64`, `/` and `%` truncate toward zero, a `byte` shift
  count is masked to six bits, and `>>=` is the arithmetic shift.
* The comment in `Utility.gameEndedUtility` says 1000; the code assigns 10000,
  and the model follows the code (`Utilities.Win`).
* The searches are modelled as the code runs them, not as textbook minimax.
  * `minimax` scores a successor by `utilityCorners` of the board its own
    recursive call returns (a board deeper in the tree), not by a value
    carried up from the leaves.
  * `alphaBeta` returns that deeper board, not a successor, when it prunes.
  * Both keep the first best successor on ties (strict `>` and `<`).

## Model

| member | source | states |
|---|---|---|
| Colors.OppositeColor | src/main_components/Functions.java:9-15 | BLACK and WHITE map to each other and NONE has no opposite (null), each as an if-and-only-if |
| Colors.OppositeInvolution | src/main_components/Board.java:122-128 | for BLACK and WHITE the opposite is a different real colour, and the opposite of the opposite is the colour itself |
| BitFunctions.Signed | src/main_components/BitFunctions.java:23-25 | the int value of a Java byte lies in [-128, 128) and equals the unsigned value below 128 |
| BitFunctions.JavaDiv | src/main_components/BitFunctions.java:33 | Java's int `/` truncates toward zero: Euclidean division for a non-negative dividend, negated for a negative one |
| BitFunctions.JavaRem | src/main_components/BitFunctions.java:33 | Java's `%`: `a == b * (a / b) + a % b`, with the remainder taking the sign of the dividend |
| BitFunctions.TileNumOnBoard | src/main_components/BitFunctions.java:23-25 | on the 8 x 8 board, getTileNum is the byte 63 - (8y + x), in 0 .. 63 |
| BitFunctions.GetPoint | src/main_components/BitFunctions.java:32-34 | getPoint maps tile numbers 0 .. 63 onto the board |
| BitFunctions.TileNumRoundTrip | src/main_components/BitFunctions.java:23-34 | getPoint(getTileNum(p)) == p for every tile of the board |
| BitFunctions.PointRoundTrip | src/main_components/BitFunctions.java:23-34 | getTileNum(getPoint(t)) == t for every tile number 0 .. 63 |
| BitFunctions.GetPointInjective | src/main_components/BitFunctions.java:32-34 | distinct tile numbers of the board name distinct points |
| BitFunctions.TileNumInjective | src/main_components/BitFunctions.java:23-25 | two tiles of the board have the same tile number exactly when they are the same tile |
| BitFunctions.ShiftDistance | src/main_components/BitFunctions.java:54 | the distance `1L << t` shifts by is below 64, and is t itself for a tile number |
| BitFunctions.GetBit | src/main_components/BitFunctions.java:53-55 | getBit is true exactly when the selected bit of the long is set |
| BitFunctions.SetBitEffect | src/main_components/BitFunctions.java:74-76 | setBit sets the selected bit and keeps every other bit |
| BitFunctions.ClearBitEffect | src/main_components/BitFunctions.java:96-99 | clearBit clears the selected bit and keeps every other bit |
| BitFunctions.SameBit | src/main_components/BitFunctions.java:42-45 | the Point overloads of getBit/setBit/clearBit select the same bit for two tiles only if they are the same tile |
| BitFunctions.PopCount | src/main_components/BitFunctions.java:101-105 | the number of set bits among the first n is at most n |
| BitFunctions.ShiftRightSignedBit | src/main_components/BitFunctions.java:108 | `num >>= 1` moves bit k + 1 to bit k |
| BitFunctions.ShiftedStep | src/main_components/BitFunctions.java:108-111 | one turn of the cardinality loop: `num & 1` tests bit b of the input, and after the shift `num` holds the input shifted right by b + 1 |
| BitFunctions.Cardinality | src/main_components/BitFunctions.java:106-113 | cardinality returns the number of set bits of all 64, a value in 0 .. 64 |
| Grids.SetTile | src/main_components/Board.java:249 | changing one tile gives that tile the new colour and keeps every other tile and the dimensions |
| Grids.GridExtensionality | src/main_components/Board.java:55-64 | two grids with the same dimensions and the same colour on every tile are equal (used for the deep copy) |
| Grids.CountRow | src/main_components/Player.java:15 | the number of disks of a colour in a row is at most the row's length |
| Grids.CountSetTile | src/main_components/Board.java:247-262 | recolouring one tile moves exactly that tile between the colour counts, the invariant behind the score updates |
| Grids.CountTotal | src/main_components/Player.java:15 | the BLACK, WHITE and empty counts add up to rows * columns |
| Grids.CornersOwned | src/main_components/Board.java:449-460 | cornersOwned is 0 .. 4, and 4 exactly when all four corners hold the colour |
| Grids.XSquaresOwned | src/main_components/Board.java:349-360 | xSquaresOwned is 0 .. 4 |
| Grids.BadXSquaresOwned | src/main_components/Board.java:368-379 | badXSquaresOwned is at most xSquaresOwned, 0 when every corner is taken, and equal to xSquaresOwned when every corner is empty |
| Grids.CSquaresOwned | src/main_components/Board.java:386-410 | cSquaresOwned is 0 .. 8 |
| Grids.BadCSquaresOwned | src/main_components/Board.java:418-442 | badCSquaresOwned is at most cSquaresOwned, 0 when every corner is taken, and equal to cSquaresOwned when every corner is empty |
| Grids.Corner | src/main_components/Board.java:368-379 | the four corners the counters visit lie on the board |
| Grids.XSquare | src/main_components/Board.java:368-379 | the X-square of each corner lies on the board |
| Grids.CSquare | src/main_components/Board.java:418-442 | each C-square lies on the board, orthogonally next to its own corner |
| Grids.BadXSquaresPerCorner | src/main_components/Board.java:368-379 | badXSquaresOwned is the number of corners that are empty while the X-square diagonally inside that corner has the colour |
| Grids.BadCSquaresPerCorner | src/main_components/Board.java:418-442 | badCSquaresOwned is the number of C-squares of the colour whose own corner is empty, two C-squares per corner |
| Grids.InitialGrid | src/main_components/Board.java:81-97 | initializeBoard's grid has the board's dimensions (its tiles: BoardProperties.InitialGridTiles) |
| Rules.FlipDisk | src/main_components/Board.java:247-262 | flipDisk keeps the dimensions (its effect: FlipProperties.FlipDiskOutcome, FlipDiskKeepsScores) |
| Rules.RemoveDisk | src/main_components/Board.java:231-240 | removeDisk keeps the dimensions (its effect on the scores: FlipProperties.RemoveDiskKeepsScores) |
| Rules.FlipRun | src/main_components/Board.java:309-316 | the flipInDirection walk keeps the dimensions (its effect: FlipProperties.FlipRunFlips, FlipRunOnRay, FlipRunStops) |
| Rules.FlipInDirection | src/main_components/Board.java:303-318 | flipInDirection keeps the dimensions (its effect: FlipProperties.FlipInDirectionOutcome) |
| Rules.FlipDirections | src/main_components/Board.java:276-291 | the eight flipInDirection calls keep the dimensions (their effect: FlipProperties.FlipDirectionsOutcome; their list: CaptureRuns.FlipDirectionsRuns) |
| Rules.FlipCaptures | src/main_components/Board.java:270-293 | flipCaptures keeps the dimensions (its effect: FlipProperties.FlipCapturesOutcome; its list: CaptureRuns.FlipCapturesRuns and CaptureRuns.CapturesExactly) |
| Rules.FlipAll | src/main_components/Command.java:47-49 | undo's flip loop keeps the dimensions (its effect: MoveProperties.FlipAllOutcome) |
| Rules.InitialState | src/main_components/Board.java:32-49 | the constructor's board is well formed (its fields: BoardProperties.InitialStateFacts) |
| Geometry.DirectionsValid | src/main_components/Board.java:176-191 | every direction validMove and flipCaptures try is a unit step |
| Geometry.DirectionsComplete | src/main_components/Board.java:276-291 | the eight directions are distinct and cover every unit step |
| CaptureSteps.RunStarts | src/main_components/Board.java:306-310 | before flipInDirection's loop, a valid direction has an opposite colour and the whole result is still to come from the neighbour |
| CaptureSteps.RunStep | src/main_components/Board.java:311-315 | one pass of the loop flips and records an opponent disk and keeps the loop invariant |
| CaptureSteps.RunStops | src/main_components/Board.java:311 | when the walk stops, the collected points and the board are the result |
| CaptureSteps.CapturesStep | src/main_components/Board.java:276-291 | one flipInDirection call of flipCaptures, with its points appended, leaves the remaining directions to give the result |
| FlipProperties.NoFlipOutcome | src/main_components/Board.java:306-307 | flipping nothing changes nothing |
| FlipProperties.FlipDiskOutcome | src/main_components/Board.java:247-262 | flipDisk of an opponent disk recolours that tile only and moves one point from the opponent's score to the mover's |
| FlipProperties.FlipOutcomeCompose | src/main_components/Board.java:276-291 | two flips in a row, each of opponent disks, add up to one flip of both lists, still without duplicates |
| FlipProperties.FlipRunFlips | src/main_components/Board.java:311-316 | the walk flips only opponent disks, each once, recolours exactly those tiles and moves the scores by their number |
| FlipProperties.FlipRunOnRay | src/main_components/Board.java:309-315 | the k-th flipped point is the k-th tile of the ray from the start |
| FlipProperties.FlipRunStops | src/main_components/Board.java:311 | the run is maximal: the tile after it is off the board or not an opponent disk |
| FlipProperties.StopsAfterStep | src/main_components/Board.java:311-315 | maximality carries back over one flipped opponent disk |
| FlipProperties.FlipRunLength | src/main_components/Board.java:311-315 | over an opponent disk the run is one longer than the run from the next tile |
| FlipProperties.FlipDiskElsewhere | src/main_components/Board.java:247-249 | flipDisk leaves every other tile as it was |
| FlipProperties.FlipInDirectionOutcome | src/main_components/Board.java:303-318 | an invalid direction flips nothing; a valid one flips a non-empty run of opponent disks along the ray, with a disk of the mover's colour right after it |
| FlipProperties.BracketedRun | src/main_components/Board.java:210-223 | a run that starts on an opponent disk whose ray reaches the mover's colour is non-empty, on the ray, and ends at a disk of that colour |
| FlipProperties.ReachesAfterRun | src/main_components/Board.java:216-223 | the first tile after a run of opponent disks on a ray that reaches `color` holds `color` |
| FlipProperties.FlipDirectionsOutcome | src/main_components/Board.java:276-291 | flipping in all eight directions is one flip of all collected points: opponent disks only, each once, scores moved accordingly |
| FlipProperties.FlipDirectionsNone | src/main_components/Board.java:303-307 | NONE brackets nothing, so flipping for NONE changes nothing |
| FlipProperties.FlipCapturesOutcome | src/main_components/Board.java:270-293 | flipCaptures off the board or for NONE changes nothing; otherwise the returned tiles were opponent disks, are listed once, are now the mover's and nothing else changed |
| FlipProperties.UpdateBoardFrame | src/main_components/Board.java:159-164 | updateBoard changes only the move lists, the turn and the game status |
| FlipProperties.PlaceDiskOutcome | src/main_components/Board.java:326-330 | placeDisk recolours the placed tile and the captured tiles (which exclude it and were opponent disks) and nothing else; which tiles are captured: CaptureRuns.CapturesBeforeMove |
| FlipProperties.CapturesOnBoard | src/main_components/Command.java:36 | the captured list is on the board, and empty for a NONE disk |
| FlipProperties.PlacedThenFlipped | src/main_components/Board.java:326-328 | after the disk and its captures, the placed tile was not among the flips and all of them hold the mover's colour |
| FlipProperties.FlipDiskKeepsScores | src/main_components/Board.java:247-262 | flipDisk keeps each score equal to its colour's disk count |
| FlipProperties.RemoveDiskKeepsScores | src/main_components/Board.java:231-240 | removeDisk keeps each score equal to its colour's disk count |
| FlipProperties.FlipRunKeepsScores | src/main_components/Board.java:311-316 | the flipInDirection walk keeps the scores counting the disks |
| FlipProperties.FlipDirectionsKeepsScores | src/main_components/Board.java:276-291 | flipCaptures keeps the scores counting the disks |
| FlipProperties.PlaceDiskKeepsScores | src/main_components/Board.java:326-330 | placeDisk keeps the scores counting the disks |
| BoardProperties.ReachesSegment | src/main_components/Board.java:216-224 | the loop of validInDirection returns true exactly when the ray holds a run of opponent disks ended by a disk of `color` |
| BoardProperties.SegmentStep | src/main_components/Board.java:219-222 | over an opponent disk the loop's answer is the answer from the next tile |
| BoardProperties.ValidInDirectionBrackets | src/main_components/Board.java:203-225 | validInDirection holds exactly when the direction brackets one or more opponent disks with a disk of the mover's colour |
| BoardProperties.ValidMoveBrackets | src/main_components/Board.java:172-193 | validMove holds exactly when the tile is on the board and empty, the colour is real, and some unit direction brackets a run |
| BoardProperties.RowMajorNoDup | src/main_components/Player.java:49-55 | a list in row-major order has no duplicates |
| BoardProperties.RowMajorAppend | src/main_components/Player.java:49-55 | two row-major lists, the second entirely after the first, join into a row-major list |
| BoardProperties.AppendMove | src/main_components/Player.java:51-53 | one turn of the inner loop appends the point exactly when it is a legal move |
| BoardProperties.RowMovesMembers | src/main_components/Player.java:50-54 | the inner loop lists exactly the legal tiles of its row |
| BoardProperties.RowMovesOrder | src/main_components/Player.java:50-54 | the inner loop lists its row's tiles left to right, at most one per column |
| BoardProperties.MovesBeforeMembers | src/main_components/Player.java:49-55 | after m rows the list holds exactly the legal tiles of those rows |
| BoardProperties.MovesBeforeOrder | src/main_components/Player.java:49-55 | after m rows the list is row-major, with at most m * columns entries |
| BoardProperties.ValidMovesFacts | src/main_components/Player.java:47-56 | updateValidMoves lists a point exactly when it is a legal move; every entry is on the board, the list is row-major and duplicate-free, and it has at most rows * columns entries |
| BoardProperties.UpdateTurnFacts | src/main_components/Board.java:133-139 | the turn changes hands exactly when the waiting side has a move, and then to the opposite colour; the counter becomes score sum minus 3; nothing else changes |
| BoardProperties.UpdateGameStatusFacts | src/main_components/Board.java:144-154 | the game ends exactly when neither side has a move (or it had already ended); the winner is then the higher scorer or NONE on a tie; nothing else changes; a second call changes nothing |
| BoardProperties.UpdateBoardPlayable | src/main_components/Board.java:159-164 | updateBoard recomputes both move lists, and afterwards, unless the game ended, the side to move has a move |
| BoardProperties.PlaceDiskPlayable | src/main_components/Board.java:326-330 | after placeDisk, unless the game ended, the side to move has a move |
| BoardProperties.InitialGridTiles | src/main_components/Board.java:81-97 | BLACK on the two centre tiles of the main diagonal, WHITE on the other two centre tiles, every other tile empty |
| BoardProperties.InitialStateFacts | src/main_components/Board.java:32-49 | the new board has BLACK to move, the game running, no winner, turn 1, scores 2 and 2, and each player's list of legal moves |
| BoardProperties.InitialCountersWhite | src/main_components/Board.java:349-460 | on a new 8 x 8 board WHITE owns no corner, X-square or C-square |
| MoveProperties.FlipAllOutcome | src/main_components/Command.java:47-49 | undo's loop over distinct tiles of one colour is one flip of them, moving the scores by their number |
| MoveProperties.UndoRestoresGrid | src/main_components/Command.java:43-51 | emptying the destination and flipping the captured tiles back gives the tiles before execute |
| MoveProperties.ExecuteScores | src/main_components/Command.java:33-38 | execute on an empty tile: the mover gains the disk and the captures, the opponent loses the captures, nothing else but tiles and scores changes |
| MoveProperties.UndoScores | src/main_components/Command.java:43-49 | undo's removeDisk and flips empty the destination, give the captured tiles back and move the scores back |
| MoveProperties.UndoReverses | src/main_components/Command.java:43-49 | applied to any board a move produced, undo's removeDisk and flips restore the tiles and scores |
| MoveProperties.UndoFlipsRestore | src/main_components/Command.java:33-49 | after execute, undo's removeDisk and flips restore the tiles, the scores and the player colours |
| MoveProperties.ExecuteThenUndo | src/main_components/Command.java:33-51 | execute then undo of a legal placement restores the tiles and scores; a board whose lists and turn agree with its tiles gets them back; gameEnded is never cleared |
| History.RedoAfterUndo | src/main_components/CommandManager.java:35-60 | redo right after an available undo puts both stacks back |
| History.UndoAfterRedo | src/main_components/CommandManager.java:35-60 | undo right after an available redo puts both stacks back |
| History.UndoKeepsCommands | src/main_components/CommandManager.java:35-41 | undo moves one command from undos to redos when one is available and otherwise changes nothing; the commands are kept |
| History.RedoKeepsCommands | src/main_components/CommandManager.java:54-60 | redo moves one command from redos to undos when one is available and otherwise changes nothing; the commands are kept |
| History.UndoAfterExecute | src/main_components/CommandManager.java:18-41 | after executeCommand nothing can be redone; the next undo takes the executed command, and a redo puts it back |
| History.RedoAllAfterUndoAll | src/main_components/CommandManager.java:35-60 | k undos then k redos give the stacks back when k commands could be undone |
| History.RedoTimesLast | src/main_components/CommandManager.java:54-60 | the last of k + 1 redos is one redo after the first k |
| Commands.Command.constructor | src/main_components/Command.java:22-28 | a new command holds the board, the colour and the destination, with nothing captured yet |
| Commands.Command.Execute | src/main_components/Command.java:33-38 | the board becomes placeDisk of the move, the captured points are flipCaptures' list (the runs bracketed before the move: CaptureRuns.CapturesBeforeMove), and the command can be undone |
| Commands.Command.Undo | src/main_components/Command.java:43-51 | the board becomes the undo of the move: destination emptied, captured points flipped to the opposite colour, updateBoard |
| Commands.CommandManager.constructor | src/main_components/CommandManager.java:11-12 | both stacks start empty |
| Commands.CommandManager.ExecuteCommand | src/main_components/CommandManager.java:18-22 | the command is executed on the board, pushed onto undos, and redos is cleared |
| Commands.CommandManager.UndoAvailable | src/main_components/CommandManager.java:28-30 | true exactly when undos is not empty |
| Commands.CommandManager.RedoAvailable | src/main_components/CommandManager.java:47-49 | true exactly when redos is not empty |
| Commands.CommandManager.Undo | src/main_components/CommandManager.java:35-41 | with no undo available nothing changes; otherwise the top command is popped, undone on the board, and pushed onto redos |
| Commands.CommandManager.Redo | src/main_components/CommandManager.java:54-60 | with no redo available nothing changes; otherwise the top command is popped, executed again, and pushed onto undos |
| CaptureRuns.SameOnRayStep | src/main_components/Board.java:303-318 | boards that agree on a ray agree on the ray one step further out |
| CaptureRuns.RaysApart | src/main_components/Board.java:276-291 | rays leaving one tile in two different directions share no tile |
| CaptureRuns.ReachesLocal | src/main_components/Board.java:203-225 | the walk of validInDirection gives the same answer on two boards that agree on its ray |
| CaptureRuns.SameOnRayAfterFlip | src/main_components/Board.java:309-316 | flipping the same tile on two boards that agree on its ray keeps them agreeing beyond it |
| CaptureRuns.FlipRunLocal | src/main_components/Board.java:309-316 | the flip walk of flipInDirection lists the same points on two boards that agree on its ray |
| CaptureRuns.FlipInDirectionLocal | src/main_components/Board.java:303-318 | flipInDirection lists the same points on two boards that agree on the ray it examines |
| CaptureRuns.OtherRayUntouched | src/main_components/Board.java:276-291 | flipInDirection in one direction leaves every tile of the ray in any other direction as it was |
| CaptureRuns.RunsOnLocal | src/main_components/Board.java:276-291 | the per-direction runs depend only on the tiles of their rays |
| CaptureRuns.AgreeAfterFirst | src/main_components/Board.java:276-291 | after the first of the distinct directions, the board still agrees with the original on the rays of the rest |
| CaptureRuns.FlipDirectionsRuns | src/main_components/Board.java:276-291 | the eight calls collect, in order, exactly the run each direction brackets on the original board, although each call sees the flips of the calls before it |
| CaptureRuns.FlipCapturesRuns | src/main_components/Board.java:270-293 | flipCaptures returns the concatenation, in call order, of the runs of the eight directions read on the board it was given |
| CaptureRuns.PlacedOffRays | src/main_components/Board.java:326-330 | placing the disk changes no tile of the rays leaving it |
| CaptureRuns.CapturesBeforeMove | src/main_components/Board.java:326-330 | the captures of placeDisk (and of Command.execute) are the runs of the eight directions on the board before the move |
| CaptureRuns.RunsOnMembers | src/main_components/Board.java:276-291 | a point is among the runs exactly when it is in the run of one of the directions |
| CaptureRuns.CapturesExactly | src/main_components/Board.java:270-330 | a point is captured exactly when, on the board before the move, it is in the run of a direction that validInDirection accepts |
| Scenarios.RowMajorUnique | src/main_components/Player.java:47-56 | two move lists in the row-major order of updateValidMoves with the same members are equal |
| Scenarios.MovesAre | src/main_components/Player.java:47-56 | a row-major list holding exactly the legal points is updateValidMoves' list |
| Scenarios.InSomeDirection | src/main_components/Board.java:172-193 | a legal point is an empty tile that brackets in at least one of the eight directions |
| Scenarios.FreshDirection | src/main_components/Board.java:81-97 | on a new 8 x 8 board only the four points of FreshMoves bracket anything |
| Scenarios.ShortBracket | src/main_components/Board.java:203-225 | an empty tile next to an opponent disk that is followed by a disk of the mover is a legal point |
| Scenarios.FreshMovesLegal | src/tests/PlayerTest.java:25-37 | the four FreshMoves points of each colour are legal on a new board |
| Scenarios.FreshValidMoves | src/tests/PlayerTest.java:25-37 | on a new board each colour's move list is exactly its four FreshMoves points |
| Scenarios.InitialFresh | src/main_components/Board.java:81-97 | initializeBoard on 8 x 8 lays out the new-board tiles |
| Scenarios.InitialNew | src/main_components/Board.java:32-49 | the constructor's 8 x 8 board is a new game: its tiles, both players with 2 disks and their lists, BLACK to move, turn 1 |
| Scenarios.NewStateFacts | src/tests/MinimaxStrategyTest.java:71-79 | a new board: 2 disks each, four moves each, and four adjacent boards for the search |
| Scenarios.NewBoardScenario | src/tests/PlayerTest.java:25-37 | new Board(8, 8): both scores 2, WHITE's four moves (and BLACK's), and getAdjacentBoards returns 4 boards (MinimaxStrategyTest 71-79) |
| Scenarios.SingleRun | src/main_components/Board.java:303-318 | one opponent disk closed by the mover's disk is a run of one point |
| Scenarios.RunsOnCons | src/main_components/Board.java:276-291 | the runs of a list of directions are the first direction's run followed by the rest |
| Scenarios.RunsOnEight | src/main_components/Board.java:276-291 | the runs of flipCaptures written out as the eight calls in order |
| Scenarios.NoRun | src/main_components/Board.java:303-318 | a direction whose first tile is not an opponent disk flips nothing |
| Scenarios.FirstCaptures | src/tests/BoardTest.java:262-274 | BLACK at (5, 3) on a new board captures exactly (4, 3) |
| Scenarios.FirstMoveGrid | src/tests/BoardTest.java:295-305 | placeDisk((5, 3), BLACK) on a new board leaves BLACK on row 3 from column 3 to 5 and on (4, 4), WHITE on (3, 4) only |
| Scenarios.FirstMoveWhiteDirection | src/tests/PlayerTest.java:61-71 | after that move WHITE brackets only from (3, 2), (5, 2) or (5, 4) |
| Scenarios.FirstMoveWhiteMoves | src/tests/PlayerTest.java:61-71 | after that move WHITE's move list is exactly (3, 2), (5, 2), (5, 4) |
| Scenarios.SecondCaptures | src/tests/BoardTest.java:157-170 | BLACK at (3, 5) next captures exactly (3, 4) |
| Scenarios.SecondMoveGrid | src/tests/BoardTest.java:157-170 | after the two moves all six disks are BLACK and every other tile is empty |
| Scenarios.AbsentNotReached | src/main_components/Board.java:203-225 | a colour absent from the board is never reached along a ray |
| Scenarios.SecondMoveNoMoves | src/tests/BoardTest.java:157-170 | after the two moves neither colour has a legal point |
| Scenarios.MoveKeepsPlayers | src/main_components/Board.java:326-330 | placeDisk keeps the players' colours, refreshes both move lists, and moves BLACK's score up by one plus the captures and WHITE's down by the captures |
| Scenarios.FirstMoveFacts | src/tests/BoardTest.java:295-305 | on a new game BLACK at (5, 3): that tile BLACK, scores 4 and 1, WHITE's three moves |
| Scenarios.SecondMoveFacts | src/tests/BoardTest.java:157-170 | BLACK at (3, 5) next: scores 6 and 0, no moves for either side, the game ended with BLACK the winner |
| Scenarios.TwoMovesFacts | src/tests/BoardTest.java:157-170 | the two moves on any new game end it 6 to 0 with no moves left |
| Scenarios.PlaceDiskScenario | src/tests/BoardTest.java:295-305 | new Board(8, 8), placeDisk((5, 3), BLACK): tile BLACK, scores 4 and 1, and WHITE's list has 3 moves (PlayerTest 61-71) |
| Scenarios.GameEndScenario | src/tests/BoardTest.java:157-170 | new Board(8, 8), BLACK at (5, 3) then (3, 5): both lists empty, scores 6 and 0, gameEnded |
| Scenarios.FlipAllElsewhere | src/main_components/Command.java:47-49 | undo's flip loop leaves every tile outside its list alone |
| Scenarios.UndoEmptiesDestination | src/main_components/Command.java:43-51 | undo leaves the destination empty when it is not among the captured points |
| Scenarios.OnLine | src/main_components/Board.java:303-318 | every point of a ray is in the row, column or a diagonal of its start |
| Scenarios.OffRayNotInRun | src/main_components/Board.java:303-318 | a point off the row, column and diagonals of the move is in no direction's run |
| Scenarios.OffRaysNotCaptured | src/main_components/Board.java:270-293 | a move never captures a point off its row, column and diagonals |
| Scenarios.PlaceSetsTile | src/main_components/Board.java:326-330 | placeDisk leaves the mover's colour on the destination, which is not among the captures |
| Scenarios.PlaceKeepsOffRay | src/main_components/Board.java:326-330 | placeDisk leaves a tile off the destination's row, column and diagonals as it was |
| Scenarios.SessionStacks | src/tests/CommandManagerTest.java:36-59 | the stacks through execute, execute, undo, undo, redo, redo: sizes (1,0), (2,0), (1,1), (0,2), (1,1), (2,0), the commands in order |
| Scenarios.CommandManagerSession | src/tests/CommandManagerTest.java:27-59 | on a new 8 x 8 board with a new manager: tile (3, 5) BLACK after the first execute, NONE after the two undos, BLACK after the two redos; stack sizes (0,0), (1,0), (0,2), (2,0) |
| Scenarios.Session | src/tests/CommandManagerTest.java:36-59 | the same observations on any board of at least 6 x 4 tiles, whatever its tiles |
| Scenarios.ExecuteBoth | src/tests/CommandManagerTest.java:40-47 | the two executes: (3, 5) BLACK and sizes (1, 0) after the first, both commands on undos after the second |
| Scenarios.UndoBoth | src/tests/CommandManagerTest.java:46-52 | the two undos: (3, 5) empty, undos empty, both commands on redos |
| Scenarios.UndoLast | src/tests/CommandManagerTest.java:49-50 | the second undo takes back BLACK's move and empties (3, 5) |
| Scenarios.RedoBoth | src/tests/CommandManagerTest.java:54-59 | the two redos: (3, 5) BLACK again, both commands back on undos in order, redos empty |
| GameBoard.Player.constructor | src/main_components/Player.java:24-30 | a new player has its colour and flag, score 2 and the legal moves of the board |
| GameBoard.Player.Copy | src/main_components/Player.java:36-41 | the copy has the same colour, flag, score and moves |
| GameBoard.Player.UpdateValidMoves | src/main_components/Player.java:47-56 | the list becomes the row-major list of the colour's legal moves (properties in BoardProperties.ValidMovesFacts) |
| GameBoard.Player.AppendRowMoves | src/main_components/Player.java:50-55 | the inner loop appends the legal tiles of one row, left to right |
| GameBoard.Board.Grid | src/main_components/Board.java:113-115 | the grid value has the board's dimensions and tile (x, y) is tile[y][x] |
| GameBoard.Board.State | src/main_components/Board.java:13-25 | the board value has the board's dimensions |
| GameBoard.Board.DiskColor | src/main_components/Board.java:113-115 | diskColor is the colour of that tile of the grid |
| GameBoard.Board.GetCurrentPlayer | src/main_components/Board.java:336-341 | the player of the side to move: blackPlayer for BLACK, whitePlayer otherwise |
| GameBoard.Board.ValidInDirection | src/main_components/Board.java:203-225 | the loop answers validInDirection (which brackets a run: BoardProperties.ValidInDirectionBrackets) |
| GameBoard.Board.ValidMove | src/main_components/Board.java:172-193 | the answer is validMove (characterised by BoardProperties.ValidMoveBrackets) |
| GameBoard.Board.constructor | src/main_components/Board.java:32-49 | fresh tiles and players, and the state of a new game (BoardProperties.InitialStateFacts) |
| GameBoard.Board.Copy | src/main_components/Board.java:55-75 | a deep copy: fresh tiles and players, the same state |
| GameBoard.Board.CopyTiles | src/main_components/Board.java:59-64 | every tile is copied from the other board |
| GameBoard.Board.InitializeBoard | src/main_components/Board.java:81-97 | the tiles become the starting grid (BoardProperties.InitialGridTiles) |
| GameBoard.Board.RemoveDisk | src/main_components/Board.java:231-240 | the state becomes removeDisk of the old state |
| GameBoard.Board.FlipDisk | src/main_components/Board.java:247-262 | the state becomes flipDisk of the old state |
| GameBoard.Board.FlipInDirection | src/main_components/Board.java:303-318 | the board and the returned list are flipInDirection of the old state |
| GameBoard.Board.FlipRun | src/main_components/Board.java:309-317 | the loop's board and list are the walk of the old state |
| GameBoard.Board.FlipNext | src/main_components/Board.java:312-315 | one turn flips the opponent disk, records it, steps on, keeps the loop invariant, and brings the walk closer to the edge |
| GameBoard.Board.FlipCaptures | src/main_components/Board.java:270-293 | the board and the returned list are flipCaptures of the old state |
| GameBoard.Board.UpdateTurn | src/main_components/Board.java:133-139 | the state becomes updateTurn of the old state (BoardProperties.UpdateTurnFacts) |
| GameBoard.Board.UpdateGameStatus | src/main_components/Board.java:144-154 | the state becomes updateGameStatus of the old state (BoardProperties.UpdateGameStatusFacts) |
| GameBoard.Board.UpdateBoard | src/main_components/Board.java:159-164 | the state becomes updateBoard of the old state |
| GameBoard.Board.PlaceDisk | src/main_components/Board.java:326-330 | the state becomes placeDisk of the old state (FlipProperties.PlaceDiskOutcome) |
| Utilities.GameEndedUtility | src/strategies/Utility.java:90-99 | on an ended board 10000 exactly for a BLACK win, -10000 exactly for a WHITE win, 0 otherwise; a running board keeps the old value |
| Utilities.UtilityCorners | src/strategies/Utility.java:46-51 | utilityCorners lies in [-10000, 10000] |
| Utilities.EndedValues | src/strategies/Utility.java:36-99 | on an ended board all four evaluators give gameEndedUtility's value, which is 10000 or -10000 exactly for a BLACK or WHITE winner |
| Utilities.ScoreTermsFromTurn44 | src/strategies/Utility.java:79-82 | the scores count in utilityFinal from turn 44 on, one for one, and not before |
| Utilities.SideUtilityBound | src/strategies/Utility.java:71-82 | on an 8 x 8 board one side's term of utilityFinal lies within 1120 of zero |
| Utilities.UtilityBounds | src/strategies/Utility.java:88-95 | on a running 8 x 8 board every evaluator lies strictly inside (-10000, 10000), as the comment on gameEndedUtility requires |
| Utilities.RegulationBoard | src/strategies/Utility.java:71-82 | an 8 x 8 board whose scores count its disks, with updated lists and a turn of 1 .. 61, meets the bounds those lemmas need |
| Utilities.MovesAtMost64 | src/main_components/Player.java:47-56 | an 8 x 8 board has at most 64 legal moves per side |
| Utilities.InitialCornersEmpty | src/main_components/Board.java:81-97 | no corner of a new board of four or more rows holds a disk |
| Utilities.InitialUtilities | src/strategies/Utility.java:36-51 | on a new board the score difference and the corner difference are 0 |
| Utilities.WhiteCornerUtility | src/strategies/Utility.java:46-51 | WHITE taking corner (0, 0) of a new board makes utilityCorners -1 |
| Utilities.Compare | src/strategies/BoardComparatorWhite.java:22-30 | compare is negative, zero or positive exactly as the first board's utilityFinal is below, equal to or above the second's |
| Utilities.CompareLaws | src/strategies/BoardComparatorWhite.java:22-30 | compare is reflexive, antisymmetric, and transitive in sign, as Collections.sort needs |
| Utilities.CompareFits | src/strategies/BoardComparatorWhite.java:29 | on 8 x 8 boards the subtraction cannot overflow an int |
| Ordering.Insert | src/strategies/AlphaBetaStrategy.java:72-75 | one insertion step yields a list of valid indices, one longer |
| Ordering.SortOrder | src/strategies/AlphaBetaStrategy.java:72-75 | the sort of the first n indices yields n valid indices |
| Ordering.InsertMembers | src/strategies/AlphaBetaStrategy.java:72-75 | insertion adds the new index and keeps every other |
| Ordering.InsertSorted | src/strategies/AlphaBetaStrategy.java:72-75 | insertion keeps a key-ordered list key-ordered |
| Ordering.InsertStable | src/strategies/AlphaBetaStrategy.java:72-75 | inserting an index larger than all others keeps equal keys in index order |
| Ordering.InsertNext | src/strategies/AlphaBetaStrategy.java:72-75 | inserting the next index keeps the list in range, sorted and stable |
| Ordering.SortOrderStep | src/strategies/AlphaBetaStrategy.java:72-75 | sorting one more index keeps the result sorted and stable |
| Ordering.SortOrderFacts | src/strategies/AlphaBetaStrategy.java:72-75 | Collections.sort's order: sorted by key (descending for reverseOrder), with ties in their original order, each index once |
| Ordering.SortOrderMembers | src/strategies/AlphaBetaStrategy.java:72-75 | the sort of the first n indices holds exactly the indices below n |
| Ordering.IncreasingUnique | src/strategies/AlphaBetaStrategy.java:72-75 | two lists ordered by (key, index) with the same members are the same list |
| Ordering.StableSortUnique | src/strategies/AlphaBetaStrategy.java:72-75 | every stable sort of the first n indices by key (each index once, key-ordered, ties in index order) is the model's order, so any stable sort, TimSort included, orders the boards alike |
| Ordering.Arrange | src/strategies/AlphaBetaStrategy.java:72-75 | entry k of the rearranged list is the entry the k-th index names |
| Ordering.ArrangeInsert | src/strategies/AlphaBetaStrategy.java:72-75 | an insertion step adds exactly the inserted entry to the rearranged list |
| Ordering.SortAddsOne | src/strategies/AlphaBetaStrategy.java:72-75 | sorting one more entry adds that entry |
| Ordering.SortPermutes | src/strategies/AlphaBetaStrategy.java:72-75 | the sorted list is a permutation of the list sorted |
| Ordering.Scan | src/strategies/MinimaxStrategy.java:58-83 | the scan of minimax's loops returns the starting index or an index of the list |
| Ordering.ScanFirstBest | src/strategies/MinimaxStrategy.java:58-83 | the loop keeps the starting index when nothing beats the start, else the first entry that beats the start and that nothing beats |
| Ordering.TakeFirst | src/strategies/MinimaxStrategy.java:65-68 | a first entry that beats the best so far becomes the best, and the scan's answer stays the first best |
| Ordering.SkipFirst | src/strategies/MinimaxStrategy.java:65-68 | a first entry that does not beat the best so far is passed over |
| Ordering.FirstBest | src/strategies/MinimaxStrategy.java:59-69 | from MIN_VALUE (or MAX_VALUE) the loop over a non-empty list keeps the first entry with the best value: none is better, every earlier one is worse |
| Ordering.ScanStep | src/strategies/MinimaxStrategy.java:60-69 | one turn of the loop: an entry that beats the best so far replaces it, otherwise the loop goes on unchanged |
| Ordering.ScanEnd | src/strategies/MinimaxStrategy.java:84 | past the last entry the loop answers the best index so far |
| Search.SuccessorLive | src/strategies/Strategy.java:46-49 | each successor keeps the dimensions, is ready for another search step, and keeps the scores counting the disks |
| Search.MovesLive | src/strategies/Strategy.java:45-50 | the same for the successor of every legal move |
| Search.Successors | src/strategies/Strategy.java:38-52 | one successor per move of the side to move, each ready for another search step |
| Search.FirstInRow | src/strategies/Strategy.java:62-65 | the inner loop of getCommand answers only a tile that is empty on the board and occupied on the successor |
| Search.FirstFrom | src/strategies/Strategy.java:61-66 | the outer loop answers only such a tile |
| Search.FirstInRowFacts | src/strategies/Strategy.java:62-65 | the inner loop finds the leftmost such tile of its row, or there is none |
| Search.FirstFromFacts | src/strategies/Strategy.java:61-67 | the loops find the first such tile in row-major order, or there is none (null) |
| Search.RecoverMove | src/strategies/Strategy.java:60-68 | for a successor built from a legal move, getCommand reads back exactly that move and the mover's colour |
| Search.RecoverSuccessor | src/strategies/Strategy.java:38-68 | the same for the i-th successor getAdjacentBoards builds |
| Search.Minimax | src/strategies/MinimaxStrategy.java:50-85 | an ended board or the depth limit answers the board itself; otherwise there is an answer exactly when the side to move has a move |
| Search.BestSuccessor | src/strategies/MinimaxStrategy.java:55-84 | below the limit, the loops answer a successor exactly when there is one (null otherwise) |
| Search.CornerValues | src/strategies/MinimaxStrategy.java:62-64 | one child value per successor, each within [-10000, 10000] |
| Search.MinimaxLookahead | src/strategies/MinimaxStrategy.java:62 | the recursive call returns a board that can be searched and evaluated |
| Search.MinimaxChoice | src/strategies/MinimaxStrategy.java:58-84 | below the limit with a move, minimax answers the first successor with the best child value: none better, every earlier one strictly worse |
| Search.EvaluateBound | src/strategies/AlphaBetaStrategy.java:81-85 | utilityScoreDiff and utilityComplex lie within [-10000, 10000] |
| Search.Keys | src/strategies/AlphaBetaStrategy.java:72-75 | key j is the comparator's key of successor j |
| Search.Ordered | src/strategies/AlphaBetaStrategy.java:67-75 | the sorted successors: as many as the moves, each ready for another search step |
| Search.OrderedSorts | src/strategies/AlphaBetaStrategy.java:70-101 | the order is a stable sort of the successors by key: a permutation, key-ordered (descending for BLACK), ties in getAdjacentBoards order |
| Search.Loop | src/strategies/AlphaBetaStrategy.java:77-120 | the loop ends by pruning at a child, or with the starting index or an index of a child |
| Search.Step | src/strategies/AlphaBetaStrategy.java:86-93 | one child: the same bounds on the answer as the loop |
| Search.LoopEnd | src/strategies/AlphaBetaStrategy.java:122 | past the last child the loop answers the best so far |
| Search.LoopStep | src/strategies/AlphaBetaStrategy.java:86-93 | one turn of the loop: prune when the value reaches the bound, else go on with the bound and the best updated |
| Search.Trace | src/strategies/AlphaBetaStrategy.java:78-94 | the loop computes at most one value per remaining child |
| Search.LoopUnpruned | src/strategies/AlphaBetaStrategy.java:78-94 | a loop that runs to the end computes every value and keeps the first best, as minimax's loop does |
| Search.LoopPruned | src/strategies/AlphaBetaStrategy.java:90-119 | a pruned loop stops at a child whose value reached beta (BLACK) or came down to alpha (WHITE) |
| Search.LoopCompletes | src/strategies/AlphaBetaStrategy.java:77-94 | with values within [-10000, 10000] and an unreachable bound, nothing is pruned and the loop ends with a best child once it has seen one |
| Search.LoopFinds | src/strategies/AlphaBetaStrategy.java:77-94 | with values within [-10000, 10000], the loop ends without a best child (null) exactly when there are no children |
| Search.LoopChoice | src/strategies/AlphaBetaStrategy.java:77-94 | with an unreachable bound the loop runs to the end and keeps the first child with the best value |
| Search.TraceBound | src/strategies/AlphaBetaStrategy.java:81-85 | every value the loop computes lies within [-10000, 10000] |
| Search.AlphaBeta | src/strategies/AlphaBetaStrategy.java:62-123 | an ended board or the depth limit answers the board itself; otherwise there is an answer exactly when the side to move has a move |
| Search.Turn | src/strategies/AlphaBetaStrategy.java:70-122 | below the limit, an answer exists exactly when the side to move has a move |
| Search.Answer | src/strategies/AlphaBetaStrategy.java:77-122 | the loop over the sorted successors answers exactly when there is one |
| Search.Settle | src/strategies/AlphaBetaStrategy.java:92-122 | the board a finished loop answers can be searched and evaluated |
| Search.Values | src/strategies/AlphaBetaStrategy.java:80-85 | child j's value with bounds (a, b) is the evaluation of its look-ahead board, within [-10000, 10000] |
| Search.Lookahead | src/strategies/AlphaBetaStrategy.java:80 | the recursive call returns a board that can be searched, whose evaluation is within [-10000, 10000] |
| Search.AlphaBetaUnpruned | src/strategies/AlphaBetaStrategy.java:62-123 | a running node with a move and an unreachable bound searches every child and answers the first sorted successor with the best value |
| Search.AlphaBetaPruned | src/strategies/AlphaBetaStrategy.java:91-93 | a node whose loop prunes answers a look-ahead board whose value is at least beta (BLACK) or at most alpha (WHITE) |
| Search.AlphaBetaBest | src/strategies/AlphaBetaStrategy.java:122 | a node whose loop ends with a best child answers that child |
| Search.AlphaBetaSettles | src/strategies/AlphaBetaStrategy.java:62-123 | a running node answers what its loop over the sorted successors settles on |
| Search.AlphaBetaRoot | src/strategies/AlphaBetaStrategy.java:41-44 | move's call from (MIN_VALUE, MAX_VALUE) on a running board with a move answers one of the successors |
| Search.FromSuccessor | src/strategies/Strategy.java:60-68 | every successor is the placement of a legal move of the side to move, which getCommand reads back |
| Strategies.GetAdjacentBoards | src/strategies/Strategy.java:38-52 | one valid board per move of the side to move, in list order, each the placement of that move on a copy |
| Strategies.PlaceEach | src/strategies/Strategy.java:45-50 | board j of the loop's list is valid and has the j-th successor's state |
| Strategies.Adjacent | src/strategies/Strategy.java:46-48 | a fresh deep copy with the move executed by the side to move |
| Strategies.GetCommand | src/strategies/Strategy.java:60-68 | null when no tile went from empty to occupied; otherwise a fresh Command for the first such tile in row-major order, with the successor's colour there |
| Strategies.Replay | src/strategies/MinimaxStrategy.java:36-37 | getCommand then execute turns the board into the chosen successor |
| Strategies.MinimaxStrategy.constructor | src/strategies/MinimaxStrategy.java:17-25 | the depth is 5 |
| Strategies.MinimaxStrategy.Minimax | src/strategies/MinimaxStrategy.java:50-85 | null exactly when the search function has no answer; otherwise a valid board with the state minimax answers |
| Strategies.MinimaxStrategy.BestLookahead | src/strategies/MinimaxStrategy.java:58-84 | the loops keep the successor board the scan of child values selects, null when none |
| Strategies.MinimaxStrategy.Consider | src/strategies/MinimaxStrategy.java:61-68 | one turn: the child search, utilityCorners, and the best updated as one step of the scan |
| Strategies.MinimaxStrategy.Move | src/strategies/MinimaxStrategy.java:32-41 | the board becomes the successor minimax chooses at depth `depth`, and is returned |
| Strategies.MinimaxStrategy.Decide | src/strategies/MinimaxStrategy.java:33-37 | minimax, getCommand and execute: the board becomes minimax's answer |
| Strategies.MinimaxStrategy.Choose | src/strategies/MinimaxStrategy.java:33 | minimax leaves the board as it was and answers a successor that getCommand can read back |
| Strategies.AlphaBetaStrategy.constructor | src/strategies/AlphaBetaStrategy.java:24-28 | the given depth, and fullSearch false |
| Strategies.AlphaBetaStrategy.Move | src/strategies/AlphaBetaStrategy.java:35-51 | from turn 48 on depth 60 and a full search, else both unchanged; the board becomes alphaBeta's answer from (MIN_VALUE, MAX_VALUE), and is returned |
| Strategies.AlphaBetaStrategy.Decide | src/strategies/AlphaBetaStrategy.java:41-48 | alphaBeta, getCommand and execute: the board becomes alphaBeta's answer |
| Strategies.AlphaBetaStrategy.Choose | src/strategies/AlphaBetaStrategy.java:41-44 | alphaBeta leaves the board as it was and answers a successor that getCommand can read back |
| Strategies.AlphaBetaStrategy.AlphaBeta | src/strategies/AlphaBetaStrategy.java:62-123 | null exactly when the search function has no answer; otherwise a valid board with that state; the board searched is unchanged |
| Strategies.AlphaBetaStrategy.SortedBoards | src/strategies/AlphaBetaStrategy.java:67-75 | the successor boards in the sorted order, each with the state of the sorted successor at its place |
| Strategies.AlphaBetaStrategy.SortBoards | src/strategies/AlphaBetaStrategy.java:72-75 | the boards rearranged by the stable sort of their keys, descending for BLACK |
| Strategies.AlphaBetaStrategy.BoardKeys | src/strategies/AlphaBetaStrategy.java:72-75 | each board's comparator key, in order |
| Strategies.AlphaBetaStrategy.Prune | src/strategies/AlphaBetaStrategy.java:77-122 | the loop answers what the loop function gives: the look-ahead board where it prunes, the best successor otherwise, null when none |
| Strategies.AlphaBetaStrategy.Visit | src/strategies/AlphaBetaStrategy.java:79-93 | one turn: the child search with the current bounds, its value, the best and the bounds updated, and whether the loop prunes |

## Left out

- The user interface, the game loop, the listeners, `View`, `Controller`,
  `RandomStrategy`, `Button` and every `toString` are not part of this model.
- `utilityComplex` and `ScoreComparatorWhite` are called by `alphaBeta`, but
  their code is not part of this model. They are parameters (`Search.Unseen`).
  `utilityComplex` is assumed to stay within [-10000, 10000] like every other
  evaluator (`Search.Bounded`).
- `Strategies.MinimaxStrategy.Move`: it executes the command directly rather
  than through `commandManager.executeCommand`, so it does not push the
  command onto an undo stack, and `view.updateView()` is not modelled.
  `Strategy.java` (lines 16-24) declares no `commandManager`, `view` or
  `Controller` constructor, so the `Controller` argument of the constructor is
  dropped as well.
- `Strategies.MinimaxStrategy.Move`, `Strategies.AlphaBetaStrategy.Move`:
  they require a running game in which the side to move has a move. Otherwise
  the Java code passes a null Command to execute.
- `Strategies.MinimaxStrategy.Move`: it also requires `0 < depth`. With
  depth 0 the Java `minimax` returns the board itself, `getCommand` finds no
  successor equal to it and returns null, and `execute` then throws; with a
  negative depth `currLevel == maxDepth` never holds, so the search runs every
  branch to the end of the game. Neither case is modelled.
- `Strategies.AlphaBetaStrategy.Move`: it also requires `0 < depth` before turn
  48, for the same two reasons; from turn 48 on the depth is set to 60.
- `GameBoard.Board.constructor`, `GameBoard.Board.InitializeBoard` and
  `Grids.InitialGrid` require `Grids.Initializable` (at least 2 rows, and more
  columns than half the rows). On smaller boards the Java `initializeBoard`
  indexes outside the tile array and throws; the exception is not modelled.
- `Utility` is a class that stores `value`; the model computes the same
  number as a function of the board value.
- `Collections.sort` is modelled as a stable insertion sort of indices by
  precomputed keys. Any stable sort gives the same order
  (`Ordering.StableSortUnique`), but comparator calls are not counted.
- The two loops of `alphaBeta` (BLACK and WHITE) are one loop, with `black`
  choosing the comparison and which bound moves.
- The two loops of `minimax` are likewise one loop.
- `Strategies.GetAdjacentBoards` does not state that the boards are fresh or
  distinct; each board is created fresh by `Strategies.Adjacent`.
- Java's `int` overflow is not modelled in the scores, the turn counter or
  the utilities. `Utilities.CompareFits` shows that the one subtraction that
  could overflow on a regulation board does not.
- The `long` and `byte` helpers of `BitFunctions` are modelled, but nothing in
  the engine calls them.
- Disks as separate objects, and the aliasing of a `Disk` between boards, are
  not modelled; a tile is its colour. The copy constructor copies each
  colour, as the Java code creates a new `Disk` for each tile.
- The Point overloads of `getBit`, `setBit` and `clearBit` are modelled as
  functions without their own contract rows; `BitFunctions.SameBit` covers
  what they add.
