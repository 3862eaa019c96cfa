/**
 * Strategy.java, MinimaxStrategy.java and AlphaBetaStrategy.java on Board
 * objects: each method builds, searches or moves real boards and is proved
 * to agree with the functions of Search on their states.
 */
module Strategies {
  import opened Wrappers
  import opened Colors
  import opened Geometry
  import opened Rules
  import opened GameBoard
  import opened Commands
  import opened Utilities
  import opened Ordering
  import opened Search
  import opened Grids

  /**
   * getAdjacentBoards: for each move of the side to move, in list order, a
   * deep copy of the board on which a new Command for that move is executed.
   */
  method GetAdjacentBoards(board: Board) returns (boards: seq<Board>)
    requires board.Valid() && Searchable(board.State())
    ensures |boards| == |CurrentPlayer(board.State()).validMoves|
    ensures forall i :: 0 <= i < |boards| ==>
      boards[i].Valid() && boards[i].State() == PlaceDisk(board.State(), CurrentPlayer(board.State()).validMoves[i], board.playerTurn)
  {
    var validMoves := if board.playerTurn == BLACK then board.blackPlayer.validMoves else board.whitePlayer.validMoves;
    assert validMoves == CurrentPlayer(board.State()).validMoves;
    boards := PlaceEach(board, validMoves, Successors(board.State()));
  }

  /**
   * The loop of getAdjacentBoards: board j of the result is a copy of board
   * with moves[j] placed, whose state succ[j] gives.
   */
  method PlaceEach(board: Board, moves: seq<Point>, ghost succ: seq<BoardState>) returns (boards: seq<Board>)
    requires board.Valid() && |succ| == |moves|
    requires forall j {:trigger moves[j]} :: 0 <= j < |moves| ==>
      board.ValidPosition(moves[j]) && succ[j] == PlaceDisk(board.State(), moves[j], board.playerTurn)
    ensures |boards| == |moves|
    ensures forall j :: 0 <= j < |boards| ==> boards[j].Valid() && boards[j].State() == succ[j]
  {
    boards := [];
    for i := 0 to |moves|
      invariant |boards| == i
      invariant Hold(boards, succ[..i])
    {
      var resultingBoard := Adjacent(board, moves[i]);
      HoldAppend(boards, succ, i, resultingBoard);
      boards := boards + [resultingBoard];
    }
    assert succ[..|moves|] == succ;
  }

  /** One more valid board whose state is succ[i] extends Hold from succ[..i] to succ[..i + 1]. */
  lemma HoldAppend(boards: seq<Board>, succ: seq<BoardState>, i: int, b: Board)
    requires 0 <= i < |succ| && Hold(boards, succ[..i])
    requires b.Valid() && b.State() == succ[i]
    ensures Hold(boards + [b], succ[..i + 1])
  {
    assert succ[..i + 1] == succ[..i] + [succ[i]];
  }

  /** Board j of boards is a valid board whose state is states[j], for every j. */
  ghost predicate Hold(boards: seq<Board>, states: seq<BoardState>)
    reads boards, set b | b in boards :: b.tile
    reads set b | b in boards :: b.blackPlayer, set b | b in boards :: b.whitePlayer
  {
    |boards| == |states| && forall j :: 0 <= j < |boards| ==> boards[j].Valid() && boards[j].State() == states[j]
  }

  /** One iteration of getAdjacentBoards: a copy of board with move executed by the side to move. */
  method Adjacent(board: Board, move: Point) returns (resultingBoard: Board)
    requires board.Valid() && board.ValidPosition(move)
    ensures resultingBoard.Valid() && resultingBoard.State() == PlaceDisk(board.State(), move, board.playerTurn)
    ensures fresh(resultingBoard) && fresh(resultingBoard.tile)
    ensures fresh(resultingBoard.blackPlayer) && fresh(resultingBoard.whitePlayer)
  {
    resultingBoard := new Board.Copy(board);
    var command := new Command(resultingBoard, resultingBoard.playerTurn, move);
    command.Execute();
  }

  /**
   * getCommand: rows outer and columns inner, the first tile empty on board
   * and occupied on successorBoard gives a new Command for board with the
   * successor's colour there; null when there is none.
   */
  method GetCommand(board: Board, successorBoard: Board) returns (command: Command?)
    requires board.Shape() && successorBoard.Shape()
    requires board.rows <= successorBoard.rows && board.columns <= successorBoard.columns
    ensures RecoveredMove(board.Grid(), successorBoard.Grid()).None? ==> command == null
    ensures RecoveredMove(board.Grid(), successorBoard.Grid()).Some? ==>
      var (p, c) := RecoveredMove(board.Grid(), successorBoard.Grid()).value;
      command != null && fresh(command) &&
      command.board == board && command.destination == p && command.color == c && command.capturedPoints == []
  {
    ghost var b, t := board.Grid(), successorBoard.Grid();
    for row := 0 to board.rows
      invariant FirstFrom(b, t, 0) == FirstFrom(b, t, row)
    {
      for col := 0 to board.columns
        invariant FirstFrom(b, t, 0) == (var r := FirstInRow(b, t, row, col); if r.Some? then r else FirstFrom(b, t, row + 1))
      {
        if board.tile[row, col] == NONE && successorBoard.tile[row, col] != NONE {
          assert NewTile(b, t, Point(col, row));
          command := new Command(board, successorBoard.tile[row, col], Point(col, row));
          return;
        }
      }
    }
    command := null;
  }

  /**
   * The end of move: getCommand reads the move back from the chosen successor
   * and executing that Command turns the board into that successor.
   */
  method Replay(board: Board, successorBoard: Board)
    requires board.Valid() && successorBoard.Valid() && Replays(board.State(), successorBoard.State())
    modifies board.tile, board.blackPlayer`score, board.whitePlayer`score
    modifies board.blackPlayer`validMoves, board.whitePlayer`validMoves
    modifies board`playerTurn, board`turn, board`gameEnded, board`winner
    ensures board.State() == old(successorBoard.State())
  {
    var command := GetCommand(board, successorBoard);
    command.Execute();
  }

  /** MinimaxStrategy.java: a depth-limited minimax on utilityCorners. */
  class MinimaxStrategy {
    /** The depth to search the game tree. */
    var depth: int

    constructor ()
      ensures depth == 5
    {
      depth := 5;
    }

    /**
     * minimax: the board itself when the game has ended or the depth is
     * reached; otherwise every successor is searched one level down and the
     * first whose look-ahead board has the largest utilityCorners (BLACK) or
     * the smallest (WHITE) is kept; null when there is no successor.
     */
    method Minimax(board: Board, currLevel: int, maxDepth: int) returns (bestBoard: Board?)
      requires board.Valid() && Searchable(board.State()) && currLevel <= maxDepth
      ensures bestBoard == null <==> Search.Minimax(board.State(), currLevel, maxDepth).None?
      ensures bestBoard != null ==> bestBoard.Valid() && bestBoard.State() == Search.Minimax(board.State(), currLevel, maxDepth).value
      decreases maxDepth - currLevel, 2
    {
      if board.gameEnded || currLevel == maxDepth {
        return board;
      }
      var successorBoards := GetAdjacentBoards(board);
      ghost var succ := Successors(board.State());
      bestBoard := BestLookahead(successorBoards, succ, CornerValues(succ, currLevel, maxDepth), board.playerTurn == BLACK, currLevel, maxDepth);
    }

    /**
     * The loop of minimax over the successor boards: each is searched one
     * level down, and the first whose look-ahead has the best utilityCorners
     * for the side to move (largest for BLACK, smallest for WHITE) is kept.
     */
    method BestLookahead(successorBoards: seq<Board>, ghost succ: seq<BoardState>, ghost vals: seq<int>, black: bool,
                         currLevel: int, maxDepth: int)
      returns (bestBoard: Board?)
      requires currLevel < maxDepth && |successorBoards| == |succ| && CornerLookaheads(succ, vals, currLevel, maxDepth)
      requires forall j {:trigger successorBoards[j]} :: 0 <= j < |succ| ==> successorBoards[j].Valid() && successorBoards[j].State() == succ[j]
      ensures var k := Scan(vals, 0, black, Start(black), -1);
        (bestBoard == null <==> k < 0) &&
        (bestBoard != null ==> 0 <= k < |succ| && bestBoard.Valid() && bestBoard.State() == succ[k])
      decreases maxDepth - currLevel, 1
    {
      var best := Start(black);
      ghost var bestIndex := -1;
      bestBoard := null;
      assert vals[0..] == vals;
      for i := 0 to |successorBoards|
        invariant -1 <= bestIndex < i && (bestIndex < 0 <==> bestBoard == null)
        invariant 0 <= bestIndex ==> bestBoard == successorBoards[bestIndex]
        invariant Scan(vals, 0, black, Start(black), -1) == ScanFrom(vals, i, black, best, bestIndex)
      {
        best, bestIndex, bestBoard := Consider(successorBoards[i], succ, vals, i, black, currLevel, maxDepth, best, bestIndex, bestBoard);
      }
      ScanEnd(vals, black, best, bestIndex);
    }

    /**
     * One step of that loop: minimax one level down from the successor at i
     * and utilityCorners of its result; a value that beats the best so far
     * makes this successor the best.
     */
    method Consider(successor: Board, ghost succ: seq<BoardState>, ghost vals: seq<int>, ghost i: int, black: bool,
                    currLevel: int, maxDepth: int, best: int, ghost bestIndex: int, bestBoard: Board?)
      returns (best': int, ghost bestIndex': int, bestBoard': Board?)
      requires currLevel < maxDepth && CornerLookaheads(succ, vals, currLevel, maxDepth) && 0 <= i < |succ|
      requires successor.Valid() && successor.State() == succ[i]
      ensures ScanFrom(vals, i, black, best, bestIndex) == ScanFrom(vals, i + 1, black, best', bestIndex')
      ensures (bestIndex' == i && bestBoard' == successor) || (bestIndex' == bestIndex && bestBoard' == bestBoard)
      decreases maxDepth - currLevel, 0
    {
      var lookaheadBoard := Minimax(successor, currLevel + 1, maxDepth);
      var value := UtilityCorners(lookaheadBoard.State());
      ScanStep(vals, i, value, black, best, bestIndex);
      if Beats(value, best, black) {
        best', bestIndex', bestBoard' := value, i, successor;
      } else {
        best', bestIndex', bestBoard' := best, bestIndex, bestBoard;
      }
    }

    /**
     * move: the successor minimax chooses at depth `depth`, turned back into a
     * Command by getCommand and executed on the board.
     */
    method Move(board: Board) returns (result: Board)
      requires board.Valid() && Searchable(board.State()) && 0 < depth
      requires !board.gameEnded && CurrentPlayer(board.State()).validMoves != []
      modifies board.tile, board.blackPlayer`score, board.whitePlayer`score
      modifies board.blackPlayer`validMoves, board.whitePlayer`validMoves
      modifies board`playerTurn, board`turn, board`gameEnded, board`winner
      ensures result == board && Some(board.State()) == Search.Minimax(old(board.State()), 0, depth)
    {
      Decide(board);
      result := board;
    }

    /** The rest of move: the Command getCommand reads back from minimax's answer, executed. */
    method Decide(board: Board)
      requires board.Valid() && Searchable(board.State()) && 0 < depth
      requires !board.gameEnded && CurrentPlayer(board.State()).validMoves != []
      modifies board.tile, board.blackPlayer`score, board.whitePlayer`score
      modifies board.blackPlayer`validMoves, board.whitePlayer`validMoves
      modifies board`playerTurn, board`turn, board`gameEnded, board`winner
      ensures Some(board.State()) == Search.Minimax(old(board.State()), 0, depth)
    {
      ghost var s := board.State();
      var successorBoard := Choose(board, s);
      Replay(board, successorBoard);
    }

    /**
     * minimax from level 0 down to the depth on the board whose state is s:
     * its answer is one of the successors of s, which getCommand reads back
     * as the move that leads to it.
     */
    method Choose(board: Board, ghost s: BoardState) returns (successorBoard: Board)
      requires board.Valid() && board.State() == s && Searchable(s) && 0 < depth
      requires !s.gameEnded && CurrentPlayer(s).validMoves != []
      ensures board.Valid() && board.State() == s
      ensures successorBoard.Valid() && Replays(s, successorBoard.State())
      ensures Some(successorBoard.State()) == Search.Minimax(s, 0, depth)
    {
      successorBoard := Minimax(board, 0, depth);
      MinimaxChoice(s, 0, depth);
      FromSuccessor(s, successorBoard.State());
    }
  }

  /** AlphaBetaStrategy.java: minimax with alpha-beta pruning over sorted successors. */
  class AlphaBetaStrategy {
    /** The depth to search the game tree. */
    var depth: int
    /** When true, the whole game tree is searched and utilityScoreDiff evaluates. */
    var fullSearch: bool
    /** utilityComplex and ScoreComparatorWhite, whose code is not part of this model. */
    const u: Unseen

    constructor (depth: int, u: Unseen)
      ensures this.depth == depth && !fullSearch && this.u == u
    {
      fullSearch := false;
      this.depth := depth;
      this.u := u;
    }

    /**
     * move: from turn 48 on the search goes to depth 60 over the whole tree;
     * alphaBeta runs from (MIN_VALUE, MAX_VALUE) and the board it answers is
     * turned back into a Command by getCommand and executed on the board.
     */
    method Move(board: Board) returns (result: Board)
      requires board.Valid() && Searchable(board.State()) && Scored(board.State()) && Bounded(u)
      requires !board.gameEnded && CurrentPlayer(board.State()).validMoves != []
      requires 0 < depth || board.turn >= 48
      modifies this`depth, this`fullSearch
      modifies board.tile, board.blackPlayer`score, board.whitePlayer`score
      modifies board.blackPlayer`validMoves, board.whitePlayer`validMoves
      modifies board`playerTurn, board`turn, board`gameEnded, board`winner
      ensures old(board.turn) >= 48 ==> depth == 60 && fullSearch
      ensures old(board.turn) < 48 ==> depth == old(depth) && fullSearch == old(fullSearch)
      ensures result == board &&
        Some(board.State()) == Search.AlphaBeta(old(board.State()), 0, depth, MinInt, MaxInt, fullSearch, u)
    {
      if board.turn >= 48 {
        depth := 60;
        fullSearch := true;
      }
      Decide(board);
      result := board;
    }

    /**
     * The rest of move: alphaBeta from (MIN_VALUE, MAX_VALUE) at the current
     * depth, and the Command getCommand reads back from its answer executed.
     */
    method Decide(board: Board)
      requires board.Valid() && Searchable(board.State()) && Scored(board.State()) && Bounded(u)
      requires !board.gameEnded && CurrentPlayer(board.State()).validMoves != [] && 0 < depth
      modifies board.tile, board.blackPlayer`score, board.whitePlayer`score
      modifies board.blackPlayer`validMoves, board.whitePlayer`validMoves
      modifies board`playerTurn, board`turn, board`gameEnded, board`winner
      ensures Some(board.State()) == Search.AlphaBeta(old(board.State()), 0, depth, MinInt, MaxInt, fullSearch, u)
    {
      ghost var s := board.State();
      var successorBoard := Choose(board, s);
      Replay(board, successorBoard);
    }

    /**
     * alphaBeta from (MIN_VALUE, MAX_VALUE) at the current depth on the board
     * whose state is s: its answer is one of the successors of s, and the
     * board is left as it was.
     */
    method Choose(board: Board, ghost s: BoardState) returns (successorBoard: Board)
      requires board.Valid() && board.State() == s && Searchable(s) && Scored(s) && Bounded(u)
      requires !s.gameEnded && CurrentPlayer(s).validMoves != [] && 0 < depth
      ensures board.State() == s
      ensures successorBoard.Valid() && Replays(s, successorBoard.State())
      ensures Some(successorBoard.State()) == Search.AlphaBeta(s, 0, depth, MinInt, MaxInt, fullSearch, u)
    {
      var alpha := MinInt;
      var beta := MaxInt;
      AlphaBetaRoot(s, depth, fullSearch, u);
      successorBoard := AlphaBeta(board, 0, depth, alpha, beta, fullSearch);
      FromSuccessor(s, successorBoard.State());
    }

    /**
     * alphaBeta: the board itself when the game has ended or the depth is
     * reached; otherwise the loop over the sorted successors, which answers
     * a look-ahead board when it prunes and the best successor when it does
     * not (null when there is none).
     */
    method AlphaBeta(board: Board, currLevel: int, maxDepth: int, alpha: int, beta: int, fullSearch: bool)
      returns (bestBoard: Board?)
      requires board.Valid() && Searchable(board.State()) && Scored(board.State()) && currLevel <= maxDepth && Bounded(u)
      ensures bestBoard == null <==> Search.AlphaBeta(board.State(), currLevel, maxDepth, alpha, beta, fullSearch, u).None?
      ensures bestBoard != null ==>
        bestBoard.Valid() && bestBoard.State() == Search.AlphaBeta(board.State(), currLevel, maxDepth, alpha, beta, fullSearch, u).value
      ensures board.State() == old(board.State())
      decreases maxDepth - currLevel, 4
    {
      if board.gameEnded || currLevel == maxDepth {
        return board;
      }
      ghost var s := board.State();
      var successorBoards := SortedBoards(board, fullSearch);
      ghost var succ := Ordered(s, fullSearch, u);
      bestBoard := Prune(successorBoards, succ, Values(succ, currLevel, maxDepth, fullSearch, u), board.playerTurn == BLACK,
                         currLevel, maxDepth, alpha, beta, fullSearch);
      AlphaBetaSettles(s, currLevel, maxDepth, alpha, beta, fullSearch, u);
    }

    /**
     * The successors in alphaBeta's order: getAdjacentBoards, then
     * Collections.sort by the comparator's key (reversed for BLACK).
     */
    method SortedBoards(board: Board, fullSearch: bool) returns (boards: seq<Board>)
      requires board.Valid() && Searchable(board.State())
      ensures |boards| == |Ordered(board.State(), fullSearch, u)|
      ensures forall k :: 0 <= k < |boards| ==>
        boards[k].Valid() && boards[k].State() == Ordered(board.State(), fullSearch, u)[k]
    {
      ghost var succ := Successors(board.State());
      var successorBoards := GetAdjacentBoards(board);
      boards := SortBoards(successorBoards, succ, board.playerTurn == BLACK, fullSearch);
    }

    /**
     * Collections.sort on the boards: the comparator's key of each board
     * (scoreOrder in a full search, else utilityFinal), then the stable sort
     * by those keys, descending for BLACK.
     */
    method SortBoards(boards: seq<Board>, ghost succ: seq<BoardState>, black: bool, fullSearch: bool)
      returns (sorted: seq<Board>)
      requires |boards| == |succ|
      requires forall j :: 0 <= j < |succ| ==> Countable(succ[j].grid)
      requires forall j {:trigger boards[j]} :: 0 <= j < |boards| ==> boards[j].Valid() && boards[j].State() == succ[j]
      ensures sorted == Arrange(boards, SortOrder(Keys(succ, fullSearch, u), |succ|, black))
    {
      var keys := BoardKeys(boards, succ, fullSearch);
      sorted := Arrange(boards, SortOrder(keys, |keys|, black));
    }

    /** The comparator's key of each board, in order. */
    method BoardKeys(boards: seq<Board>, ghost succ: seq<BoardState>, fullSearch: bool) returns (keys: seq<int>)
      requires |boards| == |succ|
      requires forall j :: 0 <= j < |succ| ==> Countable(succ[j].grid)
      requires forall j {:trigger boards[j]} :: 0 <= j < |boards| ==> boards[j].Valid() && boards[j].State() == succ[j]
      ensures keys == Keys(succ, fullSearch, u)
    {
      keys := seq(|boards|, j requires 0 <= j < |boards| && boards[j].Valid() && Countable(boards[j].State().grid)
                            reads if 0 <= j < |boards| then {boards[j], boards[j].tile, boards[j].blackPlayer, boards[j].whitePlayer} else {} =>
                    SortKey(boards[j].State(), fullSearch, u));
    }

    /**
     * The loop of alphaBeta over the sorted successors: each is searched one
     * level down with the current bounds and its look-ahead board evaluated;
     * a value that beats the best so far makes that successor the best;
     * BLACK raises alpha and returns the look-ahead board once a value
     * reaches beta, WHITE lowers beta and returns it once a value reaches
     * down to alpha.
     */
    method Prune(successorBoards: seq<Board>, ghost succ: seq<BoardState>, ghost value: (int, int, int) -> int,
                 black: bool, currLevel: int, maxDepth: int, alpha0: int, beta0: int, fullSearch: bool)
      returns (bestBoard: Board?)
      requires currLevel < maxDepth && |successorBoards| == |succ| && Bounded(u)
      requires forall j :: 0 <= j < |succ| ==> Live(succ[j]) && Scored(succ[j])
      requires forall j {:trigger successorBoards[j]} :: 0 <= j < |succ| ==> successorBoards[j].Valid() && successorBoards[j].State() == succ[j]
      requires forall j, a, b {:trigger Lookahead(succ[j], currLevel, maxDepth, a, b, fullSearch, u)} :: 0 <= j < |succ| ==>
        value(j, a, b) == Evaluate(Lookahead(succ[j], currLevel, maxDepth, a, b, fullSearch, u), fullSearch, u)
      ensures var o := Loop(|succ|, value, 0, alpha0, beta0, black, Start(black), -1);
        if o.Cut? then
          bestBoard != null && bestBoard.Valid() &&
          bestBoard.State() == Lookahead(succ[o.index], currLevel, maxDepth, o.alpha, o.beta, fullSearch, u)
        else
          (bestBoard == null <==> o.index < 0) && (bestBoard != null ==> bestBoard.Valid() && bestBoard.State() == succ[o.index])
      decreases maxDepth - currLevel, 3
    {
      var alpha, beta := alpha0, beta0;
      var best := Start(black);
      ghost var bestIndex := -1;
      bestBoard := null;
      for i := 0 to |successorBoards|
        invariant -1 <= bestIndex < i && (bestIndex < 0 <==> bestBoard == null)
        invariant 0 <= bestIndex ==> bestBoard == successorBoards[bestIndex]
        invariant Loop(|succ|, value, 0, alpha0, beta0, black, Start(black), -1) ==
          Loop(|succ|, value, i, alpha, beta, black, best, bestIndex)
      {
        var lookaheadBoard, improves, cut;
        lookaheadBoard, improves, alpha, beta, best, bestIndex, cut :=
          Visit(successorBoards[i], succ, value, i, black, currLevel, maxDepth, alpha, beta, best, bestIndex, fullSearch);
        if improves {
          bestBoard := successorBoards[i];
        }
        if cut {
          return lookaheadBoard;
        }
      }
      LoopEnd(|succ|, value, alpha, beta, black, best, bestIndex);
    }

    /**
     * One iteration of that loop, on successor i: alphaBeta one level down
     * with the current bounds, the value of its look-ahead board, whether that
     * value beats the best so far, the new bounds, and whether the loop prunes.
     */
    method Visit(successor: Board, ghost succ: seq<BoardState>, ghost value: (int, int, int) -> int, ghost i: int,
                 black: bool, currLevel: int, maxDepth: int, alpha: int, beta: int, best: int, ghost bestIndex: int,
                 fullSearch: bool)
      returns (lookaheadBoard: Board, improves: bool, alpha': int, beta': int, best': int, ghost bestIndex': int, cut: bool)
      requires currLevel < maxDepth && Bounded(u) && 0 <= i < |succ| && -1 <= bestIndex < i
      requires forall j :: 0 <= j < |succ| ==> Live(succ[j]) && Scored(succ[j])
      requires successor.Valid() && successor.State() == succ[i]
      requires forall j, a, b {:trigger Lookahead(succ[j], currLevel, maxDepth, a, b, fullSearch, u)} :: 0 <= j < |succ| ==>
        value(j, a, b) == Evaluate(Lookahead(succ[j], currLevel, maxDepth, a, b, fullSearch, u), fullSearch, u)
      ensures lookaheadBoard.Valid() && lookaheadBoard.State() == Lookahead(succ[i], currLevel, maxDepth, alpha, beta, fullSearch, u)
      ensures bestIndex' == if improves then i else bestIndex
      ensures Loop(|succ|, value, i, alpha, beta, black, best, bestIndex) ==
        if cut then Cut(i, alpha, beta) else Loop(|succ|, value, i + 1, alpha', beta', black, best', bestIndex')
      decreases maxDepth - currLevel, 2
    {
      lookaheadBoard := AlphaBeta(successor, currLevel + 1, maxDepth, alpha, beta, fullSearch);
      assert lookaheadBoard.State() == Lookahead(succ[i], currLevel, maxDepth, alpha, beta, fullSearch, u);
      var v := Evaluate(lookaheadBoard.State(), fullSearch, u);
      improves := Beats(v, best, black);
      best', bestIndex' := if improves then v else best, if improves then i else bestIndex;
      alpha' := if black && alpha < v then v else alpha;
      beta' := if !black && v < beta then v else beta;
      cut := if black then v >= beta else v <= alpha;
      LoopStep(|succ|, value, i, alpha, beta, black, best, bestIndex, v, alpha', beta', best', bestIndex');
    }
  }
}
