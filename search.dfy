/**
 * Strategy.java, MinimaxStrategy.java and AlphaBetaStrategy.java as functions
 * on board values: the successors getAdjacentBoards builds, the move
 * getCommand reads back from a (board, successor) pair, and the recursions of
 * minimax and alphaBeta exactly as the Java code runs them.
 */
module Search {
  import opened Wrappers
  import opened Colors
  import opened Geometry
  import opened Grids
  import opened Rules
  import FlipProperties
  import BoardProperties
  import opened Utilities
  import opened Ordering

  // ---------------------------------------------------------------- boards a search can expand

  /** Every listed move is an empty tile of the board. */
  predicate Listed(g: Grid, moves: seq<Point>)
    requires Shaped(g)
  {
    forall p :: p in moves ==> ValidPosition(g, p) && DiskColor(g, p) == NONE
  }

  /**
   * A board getAdjacentBoards can expand and the evaluators can read: at least
   * 2 x 2, BLACK or WHITE to move, and both move lists on empty tiles.
   */
  predicate Searchable(s: BoardState) {
    Countable(s.grid) && s.playerTurn != NONE &&
    Listed(s.grid, s.black.validMoves) && Listed(s.grid, s.white.validMoves)
  }

  /** Searchable, and unless the game has ended the side to move has a move: what updateBoard leaves. */
  predicate Live(s: BoardState) {
    Searchable(s) && (!s.gameEnded ==> CurrentPlayer(s).validMoves != [])
  }

  /** The scores count the disks, on a board of fewer than Win tiles. */
  predicate Scored(s: BoardState) {
    FlipProperties.ScoresMatch(s) && s.grid.rows * s.grid.columns < Win
  }

  // ---------------------------------------------------------------- getAdjacentBoards

  /** One successor keeps the dimensions, is Live, and keeps the scores counting the disks. */
  lemma SuccessorLive(s: BoardState, m: Point)
    requires Searchable(s) && ValidPosition(s.grid, m)
    ensures var t := PlaceDisk(s, m, s.playerTurn);
      t.grid.rows == s.grid.rows && t.grid.columns == s.grid.columns && Live(t) &&
      (Scored(s) ==> Scored(t))
  {
    var f := FlipCaptures(FlipDisk(s, m, s.playerTurn), m, s.playerTurn).board;
    BoardProperties.PlaceDiskPlayable(s, m, s.playerTurn);
    FlipProperties.FlipCapturesOutcome(FlipDisk(s, m, s.playerTurn), m, s.playerTurn);
    BoardProperties.UpdateBoardPlayable(f);
    BoardProperties.ValidMovesFacts(f.grid, f.black.color);
    BoardProperties.ValidMovesFacts(f.grid, f.white.color);
    if FlipProperties.ScoresMatch(s) {
      FlipProperties.PlaceDiskKeepsScores(s, m, s.playerTurn);
    }
  }

  /** The same for every move of the side to move. */
  lemma MovesLive(s: BoardState)
    requires Searchable(s)
    ensures forall m :: m in CurrentPlayer(s).validMoves ==>
      Live(PlaceDisk(s, m, s.playerTurn)) && (Scored(s) ==> Scored(PlaceDisk(s, m, s.playerTurn)))
  {
    forall m | m in CurrentPlayer(s).validMoves
      ensures Live(PlaceDisk(s, m, s.playerTurn)) && (Scored(s) ==> Scored(PlaceDisk(s, m, s.playerTurn)))
    {
      SuccessorLive(s, m);
    }
  }

  /**
   * getAdjacentBoards: for each entry of the mover's list (blackPlayer's when
   * BLACK is to move, whitePlayer's otherwise), in order, a copy of the board
   * with that move placed by the side to move. Every one is Live, and Scored
   * when the board is.
   */
  function Successors(s: BoardState): (r: seq<BoardState>)
    requires Searchable(s)
    ensures |r| == |CurrentPlayer(s).validMoves|
    ensures forall i :: 0 <= i < |r| ==> Live(r[i]) && (Scored(s) ==> Scored(r[i]))
  {
    MovesLive(s);
    var moves := CurrentPlayer(s).validMoves;
    seq(|moves|, i requires 0 <= i < |moves| => PlaceDisk(s, moves[i], s.playerTurn))
  }

  // ---------------------------------------------------------------- getCommand

  /** p is empty on b and occupied on t. */
  predicate NewTile(b: Grid, t: Grid, p: Point)
    requires Shaped(b) && Shaped(t) && b.rows <= t.rows && b.columns <= t.columns && ValidPosition(b, p)
  {
    DiskColor(b, p) == NONE && DiskColor(t, p) != NONE
  }

  /** The inner loop of getCommand: the first new tile of row `row` from column col on. */
  function FirstInRow(b: Grid, t: Grid, row: int, col: int): (r: Option<Point>)
    requires Shaped(b) && Shaped(t) && b.rows <= t.rows && b.columns <= t.columns
    requires 0 <= row < b.rows && 0 <= col
    ensures r.Some? ==> ValidPosition(b, r.value) && NewTile(b, t, r.value)
    decreases b.columns - col
  {
    if col >= b.columns then None
    else if NewTile(b, t, Point(col, row)) then Some(Point(col, row))
    else FirstInRow(b, t, row, col + 1)
  }

  /** The outer loop of getCommand: the first new tile, rows from `row` on, each row left to right. */
  function FirstFrom(b: Grid, t: Grid, row: int): (r: Option<Point>)
    requires Shaped(b) && Shaped(t) && b.rows <= t.rows && b.columns <= t.columns && 0 <= row
    ensures r.Some? ==> ValidPosition(b, r.value) && NewTile(b, t, r.value)
    decreases b.rows - row
  {
    if row >= b.rows then None
    else
      var p := FirstInRow(b, t, row, 0);
      if p.Some? then p else FirstFrom(b, t, row + 1)
  }

  /**
   * getCommand: the point of the first row-major tile that is empty on the
   * board and occupied on the successor, with the successor's colour there;
   * None where Java returns null.
   */
  function RecoveredMove(b: Grid, t: Grid): Option<(Point, Color)>
    requires Shaped(b) && Shaped(t) && b.rows <= t.rows && b.columns <= t.columns
  {
    match FirstFrom(b, t, 0)
    case None => None
    case Some(p) => Some((p, DiskColor(t, p)))
  }

  /** The inner loop finds the leftmost new tile of the row from col on, or there is none. */
  lemma {:induction false} FirstInRowFacts(b: Grid, t: Grid, row: int, col: int)
    requires Shaped(b) && Shaped(t) && b.rows <= t.rows && b.columns <= t.columns
    requires 0 <= row < b.rows && 0 <= col
    ensures var r := FirstInRow(b, t, row, col);
      (r.Some? ==>
         r.value.y == row && col <= r.value.x < b.columns && NewTile(b, t, r.value) &&
         (forall x :: col <= x < r.value.x ==> !NewTile(b, t, Point(x, row)))) &&
      (r.None? ==> forall x :: col <= x < b.columns ==> !NewTile(b, t, Point(x, row)))
    decreases b.columns - col
  {
    if col < b.columns && !NewTile(b, t, Point(col, row)) {
      FirstInRowFacts(b, t, row, col + 1);
    }
  }

  /** The outer loop finds the first new tile in row-major order from row on, or there is none. */
  lemma {:induction false} FirstFromFacts(b: Grid, t: Grid, row: int)
    requires Shaped(b) && Shaped(t) && b.rows <= t.rows && b.columns <= t.columns && 0 <= row
    ensures var r := FirstFrom(b, t, row);
      (r.Some? ==>
         row <= r.value.y && ValidPosition(b, r.value) && NewTile(b, t, r.value) &&
         (forall q :: ValidPosition(b, q) && row <= q.y && BoardProperties.Before(q, r.value) ==> !NewTile(b, t, q))) &&
      (r.None? ==> forall q :: ValidPosition(b, q) && row <= q.y ==> !NewTile(b, t, q))
    decreases b.rows - row
  {
    if row < b.rows {
      FirstInRowFacts(b, t, row, 0);
      if FirstInRow(b, t, row, 0).None? {
        FirstFromFacts(b, t, row + 1);
        forall q | ValidPosition(b, q) && q.y == row
          ensures !NewTile(b, t, q)
        {
          assert q == Point(q.x, row);
        }
      } else {
        var p := FirstInRow(b, t, row, 0).value;
        forall q | ValidPosition(b, q) && row <= q.y && BoardProperties.Before(q, p)
          ensures !NewTile(b, t, q)
        {
          assert q == Point(q.x, row);
        }
      }
    }
  }

  /**
   * For the successor a move m of the side to move produces, getCommand
   * reads back m and the mover's colour: m is the only tile that was empty
   * and is now occupied, as every captured tile already held a disk.
   */
  lemma RecoverMove(s: BoardState, m: Point)
    requires Searchable(s) && m in CurrentPlayer(s).validMoves
    ensures var t := PlaceDisk(s, m, s.playerTurn);
      t.grid.rows == s.grid.rows && t.grid.columns == s.grid.columns &&
      RecoveredMove(s.grid, t.grid) == Some((m, s.playerTurn))
  {
    var t := PlaceDisk(s, m, s.playerTurn);
    SuccessorLive(s, m);
    FlipProperties.PlaceDiskOutcome(s, m, s.playerTurn);
    FirstFromFacts(s.grid, t.grid, 0);
    assert NewTile(s.grid, t.grid, m);
    forall q | ValidPosition(s.grid, q) && NewTile(s.grid, t.grid, q)
      ensures q == m
    {
    }
  }

  /** The same for the i-th successor getAdjacentBoards builds. */
  lemma RecoverSuccessor(s: BoardState, i: int)
    requires Searchable(s) && 0 <= i < |Successors(s)|
    ensures var m, t := CurrentPlayer(s).validMoves[i], Successors(s)[i];
      t.grid.rows == s.grid.rows && t.grid.columns == s.grid.columns &&
      RecoveredMove(s.grid, t.grid) == Some((m, s.playerTurn)) && t == PlaceDisk(s, m, s.playerTurn)
  {
    RecoverMove(s, CurrentPlayer(s).validMoves[i]);
  }

  // ---------------------------------------------------------------- minimax

  /** The starting max (Integer.MIN_VALUE) of a BLACK node, or min (Integer.MAX_VALUE) of a WHITE node. */
  function Start(maximize: bool): int {
    if maximize then MinInt else MaxInt
  }

  /**
   * minimax: an ended board, or one at the depth limit, is its own answer;
   * otherwise the best successor.
   */
  function Minimax(s: BoardState, level: int, maxDepth: int): (r: Option<BoardState>)
    requires Searchable(s) && level <= maxDepth
    ensures s.gameEnded || level == maxDepth ==> r == Some(s)
    ensures !(s.gameEnded || level == maxDepth) ==>
      (r.Some? <==> CurrentPlayer(s).validMoves != [])
    ensures r.Some? ==> Searchable(r.value)
    decreases maxDepth - level, 3
  {
    if s.gameEnded || level == maxDepth then Some(s)
    else BestSuccessor(s, level, maxDepth)
  }

  /**
   * The answer of minimax at a node below the depth limit: the successor
   * (the first, on a tie) whose child value is largest for BLACK and
   * smallest for WHITE, None when there is none.
   */
  function BestSuccessor(s: BoardState, level: int, maxDepth: int): (r: Option<BoardState>)
    requires Searchable(s) && level < maxDepth
    ensures r.Some? <==> CurrentPlayer(s).validMoves != []
    ensures r.Some? ==> Searchable(r.value)
    decreases maxDepth - level, 2
  {
    var succ := Successors(s);
    var black := s.playerTurn == BLACK;
    var vals := CornerValues(succ, level, maxDepth);
    var k := Scan(vals, 0, black, Start(black), -1);
    if k < 0 then None else Some(succ[k])
  }

  /**
   * The child values of a minimax node: utilityCorners of the board the
   * recursive call returns for each successor (itself a successor of that
   * child, not a value carried up from the leaves).
   */
  function CornerValues(succ: seq<BoardState>, level: int, maxDepth: int): (vals: seq<int>)
    requires level < maxDepth && forall i :: 0 <= i < |succ| ==> Live(succ[i])
    ensures |vals| == |succ| && forall i :: 0 <= i < |succ| ==> -Win <= vals[i] <= Win
    decreases maxDepth - level, 1
  {
    seq(|succ|, i requires 0 <= i < |succ| => UtilityCorners(MinimaxLookahead(succ[i], level, maxDepth)))
  }

  /** vals holds, for each successor, utilityCorners of the board its minimax search one level down returns. */
  ghost predicate CornerLookaheads(succ: seq<BoardState>, vals: seq<int>, level: int, maxDepth: int)
    requires level < maxDepth
  {
    |vals| == |succ| &&
    forall j :: 0 <= j < |succ| ==> Live(succ[j]) && vals[j] == UtilityCorners(MinimaxLookahead(succ[j], level, maxDepth))
  }

  /** What a child search of minimax returns: the recursive call one level down. */
  function MinimaxLookahead(c: BoardState, level: int, maxDepth: int): (r: BoardState)
    requires Live(c) && level < maxDepth
    ensures Searchable(r)
    decreases maxDepth - level, 0
  {
    Minimax(c, level + 1, maxDepth).value
  }

  /**
   * Below the depth limit, on a running board with a move, minimax picks the
   * first successor with the best child value: no child is better, every
   * earlier child is strictly worse.
   */
  lemma MinimaxChoice(s: BoardState, level: int, maxDepth: int)
    requires Searchable(s) && level < maxDepth && !s.gameEnded && CurrentPlayer(s).validMoves != []
    ensures var succ, black := Successors(s), s.playerTurn == BLACK;
      var vals := CornerValues(succ, level, maxDepth);
      exists k :: 0 <= k < |succ| && Minimax(s, level, maxDepth) == Some(succ[k]) &&
        (forall j :: 0 <= j < |succ| ==> !Beats(vals[j], vals[k], black)) &&
        (forall j :: 0 <= j < k ==> Beats(vals[k], vals[j], black))
  {
    var succ, black := Successors(s), s.playerTurn == BLACK;
    var vals := CornerValues(succ, level, maxDepth);
    FirstBest(vals, black, Start(black));
    var k := Scan(vals, 0, black, Start(black), -1);
    assert Minimax(s, level, maxDepth) == Some(succ[k]);
  }

  // ---------------------------------------------------------------- alphaBeta

  /** The two evaluations alphaBeta uses whose code is not part of this model. */
  datatype Unseen = Unseen(utilityComplex: BoardState -> int, scoreOrder: BoardState -> int)

  /** utilityComplex, like every evaluator, stays within [-Win, Win]. */
  ghost predicate Bounded(u: Unseen) {
    forall s :: -Win <= u.utilityComplex(s) <= Win
  }

  /** The value alphaBeta gives a look-ahead board: utilityScoreDiff in a full search, else utilityComplex. */
  function Evaluate(s: BoardState, fullSearch: bool, u: Unseen): int {
    if fullSearch then UtilityScoreDiff(s) else u.utilityComplex(s)
  }

  /** Both evaluations stay within [-Win, Win] on a Scored board. */
  lemma EvaluateBound(s: BoardState, fullSearch: bool, u: Unseen)
    requires Shaped(s.grid) && Scored(s) && Bounded(u)
    ensures -Win <= Evaluate(s, fullSearch, u) <= Win
  {
    CountTotal(s.grid);
  }

  /** The sort key: ScoreComparatorWhite's in a full search, else BoardComparatorWhite's utilityFinal. */
  function SortKey(s: BoardState, fullSearch: bool, u: Unseen): int
    requires Countable(s.grid)
  {
    if fullSearch then u.scoreOrder(s) else UtilityFinal(s)
  }

  function Keys(succ: seq<BoardState>, fullSearch: bool, u: Unseen): (keys: seq<int>)
    requires forall i :: 0 <= i < |succ| ==> Countable(succ[i].grid)
    ensures |keys| == |succ| && forall i :: 0 <= i < |succ| ==> keys[i] == SortKey(succ[i], fullSearch, u)
  {
    seq(|succ|, i requires 0 <= i < |succ| => SortKey(succ[i], fullSearch, u))
  }

  /**
   * The successors in the order alphaBeta visits them: sorted by the key,
   * descending for BLACK (Collections.reverseOrder) and ascending for WHITE,
   * ties in getAdjacentBoards order.
   */
  function Ordered(s: BoardState, fullSearch: bool, u: Unseen): (r: seq<BoardState>)
    requires Searchable(s)
    ensures |r| == |Successors(s)|
    ensures forall k :: 0 <= k < |r| ==> Live(r[k]) && (Scored(s) ==> Scored(r[k]))
  {
    var succ := Successors(s);
    var keys := Keys(succ, fullSearch, u);
    Arrange(succ, SortOrder(keys, |keys|, s.playerTurn == BLACK))
  }

  /**
   * The order of alphaBeta is a stable sort of the successors: the same
   * boards, none after a board it must follow by key, and boards of equal
   * key in getAdjacentBoards order.
   */
  lemma OrderedSorts(s: BoardState, fullSearch: bool, u: Unseen)
    requires Searchable(s)
    ensures var succ, black := Successors(s), s.playerTurn == BLACK;
      var keys := Keys(succ, fullSearch, u);
      var order := SortOrder(keys, |keys|, black);
      Ordered(s, fullSearch, u) == Arrange(succ, order) &&
      multiset(Ordered(s, fullSearch, u)) == multiset(succ) &&
      SortedBy(keys, order, black) && Stable(keys, order)
  {
    var succ, black := Successors(s), s.playerTurn == BLACK;
    var keys := Keys(succ, fullSearch, u);
    SortPermutes(succ, keys, |keys|, black);
    SortOrderFacts(keys, |keys|, black);
    assert succ[..|keys|] == succ;
  }

  /**
   * How the loop of alphaBeta ends: pruned at child `index`, which was
   * searched with the bounds alpha and beta, or run to the end with the best
   * child at `index` (-1 when no child beat the starting value).
   */
  datatype Outcome = Cut(index: int, alpha: int, beta: int) | Best(index: int)

  /**
   * The loop of alphaBeta over n children from child i on, with
   * value(j, alpha, beta) the value of child j's look-ahead board when it is
   * searched with those bounds: past the last child it ends with the best
   * so far, otherwise it takes the Step at child i.
   */
  function Loop(n: int, value: (int, int, int) -> int, i: int, alpha: int, beta: int,
                black: bool, best: int, bestIndex: int): (o: Outcome)
    requires 0 <= i <= n
    requires -1 <= bestIndex < i
    ensures o.Cut? ==> i <= o.index < n
    ensures o.Best? ==> o.index == bestIndex || i <= o.index < n
    decreases n - i, 1
  {
    if i == n then Best(bestIndex) else Step(n, value, i, value(i, alpha, beta), alpha, beta, black, best, bestIndex)
  }

  /**
   * The loop at child i, whose value is v: a value that beats the best so
   * far makes child i the best. BLACK raises alpha and stops once a value
   * reaches beta; WHITE lowers beta and stops once a value reaches down to
   * alpha; otherwise the loop goes on at child i + 1.
   */
  function Step(n: int, value: (int, int, int) -> int, i: int, v: int, alpha: int, beta: int,
                black: bool, best: int, bestIndex: int): (o: Outcome)
    requires 0 <= i < n
    requires -1 <= bestIndex < i
    ensures o.Cut? ==> i <= o.index < n
    ensures o.Best? ==> o.index == bestIndex || i <= o.index < n
    decreases n - i, 0
  {
    var better := Beats(v, best, black);
    var best', bestIndex' := if better then v else best, if better then i else bestIndex;
    if black then
      if v >= beta then Cut(i, alpha, beta)
      else Loop(n, value, i + 1, if alpha < v then v else alpha, beta, black, best', bestIndex')
    else
      if v <= alpha then Cut(i, alpha, beta)
      else Loop(n, value, i + 1, alpha, if v < beta then v else beta, black, best', bestIndex')
  }

  /** Past the last child the loop ends with the best so far. */
  lemma LoopEnd(n: int, value: (int, int, int) -> int, alpha: int, beta: int, black: bool, best: int, bestIndex: int)
    requires -1 <= bestIndex < n
    ensures Loop(n, value, n, alpha, beta, black, best, bestIndex) == Best(bestIndex)
  {
  }

  /**
   * One step of Loop: child i, whose value is v, either prunes or moves on to
   * child i + 1 with the bound of the side to move and the best so far
   * updated (to alpha', beta', best' and bestIndex').
   */
  lemma LoopStep(n: int, value: (int, int, int) -> int, i: int, alpha: int, beta: int, black: bool, best: int, bestIndex: int,
                 v: int, alpha': int, beta': int, best': int, bestIndex': int)
    requires 0 <= i < n
    requires -1 <= bestIndex < i && v == value(i, alpha, beta)
    requires Beats(v, best, black) ==> best' == v && bestIndex' == i
    requires !Beats(v, best, black) ==> best' == best && bestIndex' == bestIndex
    requires alpha' == (if black && alpha < v then v else alpha)
    requires beta' == (if !black && v < beta then v else beta)
    ensures Loop(n, value, i, alpha, beta, black, best, bestIndex) ==
      if (black && v >= beta) || (!black && v <= alpha) then Cut(i, alpha, beta)
      else Loop(n, value, i + 1, alpha', beta', black, best', bestIndex')
  {
  }

  /** The values the loop computes from child i on, up to and including the one that prunes. */
  function Trace(n: int, value: (int, int, int) -> int, i: int, alpha: int, beta: int, black: bool): (vals: seq<int>)
    requires 0 <= i <= n
    ensures |vals| <= n - i
    decreases n - i
  {
    if i == n then []
    else
      var v := value(i, alpha, beta);
      if black then
        if v >= beta then [v]
        else [v] + Trace(n, value, i + 1, if alpha < v then v else alpha, beta, black)
      else
        if v <= alpha then [v]
        else [v] + Trace(n, value, i + 1, alpha, if v < beta then v else beta, black)
  }

  /** A loop that runs to the end computes every value and keeps the first best, as Scan does. */
  lemma {:induction false} LoopUnpruned(n: int, value: (int, int, int) -> int, i: int, alpha: int, beta: int,
                                        black: bool, best: int, bestIndex: int)
    requires 0 <= i <= n
    requires -1 <= bestIndex < i
    requires Loop(n, value, i, alpha, beta, black, best, bestIndex).Best?
    ensures var vals := Trace(n, value, i, alpha, beta, black);
      |vals| == n - i && Loop(n, value, i, alpha, beta, black, best, bestIndex).index == Scan(vals, i, black, best, bestIndex)
    decreases n - i
  {
    if i < n {
      var v := value(i, alpha, beta);
      var better := Beats(v, best, black);
      var best', bestIndex' := if better then v else best, if better then i else bestIndex;
      if black {
        LoopUnpruned(n, value, i + 1, if alpha < v then v else alpha, beta, black, best', bestIndex');
      } else {
        LoopUnpruned(n, value, i + 1, alpha, if v < beta then v else beta, black, best', bestIndex');
      }
      var vals := Trace(n, value, i, alpha, beta, black);
      assert vals[0] == v && vals[1..] == Trace(n, value, i + 1, if black && alpha < v then v else alpha,
                                                 if !black && v < beta then v else beta, black);
    }
  }

  /**
   * A pruned loop stops at a child whose value reached the bound it was
   * given: at least beta in a BLACK node (whose beta never moves), at most
   * alpha in a WHITE node (whose alpha never moves).
   */
  lemma {:induction false} LoopPruned(n: int, value: (int, int, int) -> int, i: int, alpha: int, beta: int,
                                      black: bool, best: int, bestIndex: int)
    requires 0 <= i <= n
    requires -1 <= bestIndex < i
    requires Loop(n, value, i, alpha, beta, black, best, bestIndex).Cut?
    ensures var o := Loop(n, value, i, alpha, beta, black, best, bestIndex);
      (black ==> o.beta == beta && alpha <= o.alpha && value(o.index, o.alpha, o.beta) >= beta) &&
      (!black ==> o.alpha == alpha && o.beta <= beta && value(o.index, o.alpha, o.beta) <= alpha)
    decreases n - i
  {
    var v := value(i, alpha, beta);
    var better := Beats(v, best, black);
    var best', bestIndex' := if better then v else best, if better then i else bestIndex;
    if black && v < beta {
      LoopPruned(n, value, i + 1, if alpha < v then v else alpha, beta, black, best', bestIndex');
    } else if !black && v > alpha {
      LoopPruned(n, value, i + 1, alpha, if v < beta then v else beta, black, best', bestIndex');
    }
  }

  /**
   * With every value in [-Win, Win], nothing is pruned while beta is above
   * Win in a BLACK node or alpha below -Win in a WHITE node, and the loop
   * ends with a best child as soon as it has looked at one.
   */
  lemma {:induction false} LoopCompletes(n: int, value: (int, int, int) -> int, i: int, alpha: int, beta: int,
                                         black: bool, best: int, bestIndex: int)
    requires 0 <= i <= n
    requires forall j, a, b :: 0 <= j < n ==> -Win <= value(j, a, b) <= Win
    requires -1 <= bestIndex < i && (bestIndex < 0 ==> best == Start(black))
    requires black ==> beta > Win
    requires !black ==> alpha < -Win
    ensures var o := Loop(n, value, i, alpha, beta, black, best, bestIndex);
      o.Best? && (o.index < 0 <==> bestIndex < 0 && i == n)
    decreases n - i
  {
    if i < n {
      var v := value(i, alpha, beta);
      var better := Beats(v, best, black);
      var best', bestIndex' := if better then v else best, if better then i else bestIndex;
      if black {
        LoopCompletes(n, value, i + 1, if alpha < v then v else alpha, beta, black, best', bestIndex');
      } else {
        LoopCompletes(n, value, i + 1, alpha, if v < beta then v else beta, black, best', bestIndex');
      }
    }
  }

  /**
   * With every value in [-Win, Win] the loop over at least one child either
   * prunes or ends with a best child: the first value always beats the
   * starting MIN_VALUE or MAX_VALUE.
   */
  lemma LoopFinds(n: int, value: (int, int, int) -> int, alpha: int, beta: int, black: bool)
    requires 0 <= n
    requires forall j, a, b :: 0 <= j < n ==> -Win <= value(j, a, b) <= Win
    ensures var o := Loop(n, value, 0, alpha, beta, black, Start(black), -1);
      o.Best? && o.index < 0 <==> n == 0
  {
    var o := Loop(n, value, 0, alpha, beta, black, Start(black), -1);
    if o.Best? && 0 < n {
      LoopUnpruned(n, value, 0, alpha, beta, black, Start(black), -1);
      var vals := Trace(n, value, 0, alpha, beta, black);
      TraceBound(n, value, 0, alpha, beta, black);
      FirstBest(vals, black, Start(black));
    }
  }

  /**
   * The loop from the first child with a bound no value reaches runs to the
   * end and keeps the first child with the best value.
   */
  lemma LoopChoice(n: int, value: (int, int, int) -> int, alpha: int, beta: int, black: bool)
    requires 0 < n
    requires forall j, a, b :: 0 <= j < n ==> -Win <= value(j, a, b) <= Win
    requires black ==> beta > Win
    requires !black ==> alpha < -Win
    ensures var o, vals := Loop(n, value, 0, alpha, beta, black, Start(black), -1), Trace(n, value, 0, alpha, beta, black);
      |vals| == n && o.Best? && 0 <= o.index < n &&
      (forall j :: 0 <= j < n ==> !Beats(vals[j], vals[o.index], black)) &&
      (forall j :: 0 <= j < o.index ==> Beats(vals[o.index], vals[j], black))
  {
    LoopCompletes(n, value, 0, alpha, beta, black, Start(black), -1);
    LoopUnpruned(n, value, 0, alpha, beta, black, Start(black), -1);
    TraceBound(n, value, 0, alpha, beta, black);
    FirstBest(Trace(n, value, 0, alpha, beta, black), black, Start(black));
  }

  /** Every value the loop computes lies in [-Win, Win] when every child value does. */
  lemma {:induction false} TraceBound(n: int, value: (int, int, int) -> int, i: int, alpha: int, beta: int, black: bool)
    requires 0 <= i <= n
    requires forall j, a, b :: 0 <= j < n ==> -Win <= value(j, a, b) <= Win
    ensures var vals := Trace(n, value, i, alpha, beta, black);
      forall j :: 0 <= j < |vals| ==> -Win <= vals[j] <= Win
    decreases n - i
  {
    if i < n {
      var v := value(i, alpha, beta);
      var alpha', beta' := if black && alpha < v then v else alpha, if !black && v < beta then v else beta;
      TraceBound(n, value, i + 1, alpha', beta', black);
      var vals, rest := Trace(n, value, i, alpha, beta, black), Trace(n, value, i + 1, alpha', beta', black);
      assert var w := Trace(n, value, i + 1, alpha', beta', black); forall j :: 0 <= j < |w| ==> -Win <= w[j] <= Win;
      assert vals[0] == v && (|vals| == 1 || vals[1..] == rest);
    }
  }

  /**
   * alphaBeta: an ended board, or one at the depth limit, is its own answer;
   * otherwise the answer of the branch of the side to move.
   */
  function AlphaBeta(s: BoardState, level: int, maxDepth: int, alpha: int, beta: int, fullSearch: bool, u: Unseen)
    : (r: Option<BoardState>)
    requires Searchable(s) && Scored(s) && level <= maxDepth && Bounded(u)
    ensures s.gameEnded || level == maxDepth ==> r == Some(s)
    ensures !(s.gameEnded || level == maxDepth) ==> (r.Some? <==> CurrentPlayer(s).validMoves != [])
    ensures r.Some? ==> Searchable(r.value) && Scored(r.value)
    decreases maxDepth - level, 5
  {
    if s.gameEnded || level == maxDepth then Some(s)
    else Turn(s, level, maxDepth, alpha, beta, fullSearch, u)
  }

  /** The two branches of alphaBeta at a running node: BLACK's loop and WHITE's loop. */
  function Turn(s: BoardState, level: int, maxDepth: int, alpha: int, beta: int, fullSearch: bool, u: Unseen)
    : (r: Option<BoardState>)
    requires Searchable(s) && Scored(s) && level < maxDepth && Bounded(u)
    ensures r.None? <==> CurrentPlayer(s).validMoves == []
    ensures r.Some? ==> Searchable(r.value) && Scored(r.value)
    decreases maxDepth - level, 4
  {
    if s.playerTurn == BLACK then Answer(s, level, maxDepth, alpha, beta, true, fullSearch, u)
    else Answer(s, level, maxDepth, alpha, beta, false, fullSearch, u)
  }

  /**
   * The answer of the loop of alphaBeta at a running node, over its ordered
   * successors with the child values that Values gives; black tells which
   * side moves.
   */
  function Answer(s: BoardState, level: int, maxDepth: int, alpha: int, beta: int, black: bool, fullSearch: bool, u: Unseen)
    : (r: Option<BoardState>)
    requires Searchable(s) && Scored(s) && level < maxDepth && Bounded(u) && black == (s.playerTurn == BLACK)
    ensures r.None? <==> CurrentPlayer(s).validMoves == []
    ensures r.Some? ==> Searchable(r.value) && Scored(r.value)
    decreases maxDepth - level, 3
  {
    var succ := Ordered(s, fullSearch, u);
    var value := Values(succ, level, maxDepth, fullSearch, u);
    LoopFinds(|succ|, value, alpha, beta, black);
    Settle(succ, Loop(|succ|, value, 0, alpha, beta, black, Start(black), -1), level, maxDepth, fullSearch, u)
  }

  /**
   * What a loop that ended with o answers: the look-ahead board of the child
   * it pruned at, searched with the bounds it had then; else the best child,
   * None when no child beat the starting value.
   */
  function Settle(succ: seq<BoardState>, o: Outcome, level: int, maxDepth: int, fullSearch: bool, u: Unseen)
    : (r: Option<BoardState>)
    requires level < maxDepth && Bounded(u) && forall j :: 0 <= j < |succ| ==> Live(succ[j]) && Scored(succ[j])
    requires o.Cut? ==> 0 <= o.index < |succ|
    requires o.Best? ==> o.index < |succ|
    ensures r.Some? ==> Searchable(r.value) && Scored(r.value)
    decreases maxDepth - level, 2
  {
    match o
    case Cut(j, a, b) => Some(Lookahead(succ[j], level, maxDepth, a, b, fullSearch, u))
    case Best(k) => if k < 0 then None else assert Live(succ[k]); Some(succ[k])
  }

  /**
   * The child values of an alphaBeta node: child j searched one level down
   * with bounds (a, b), its look-ahead board evaluated (0 past the children).
   */
  function Values(succ: seq<BoardState>, level: int, maxDepth: int, fullSearch: bool, u: Unseen)
    : (value: (int, int, int) -> int)
    requires level < maxDepth && Bounded(u) && forall j :: 0 <= j < |succ| ==> Live(succ[j]) && Scored(succ[j])
    ensures forall j, a, b :: 0 <= j < |succ| ==>
      -Win <= value(j, a, b) <= Win &&
      value(j, a, b) == Evaluate(Lookahead(succ[j], level, maxDepth, a, b, fullSearch, u), fullSearch, u)
    decreases maxDepth - level, 1
  {
    (j, a, b) =>
      if 0 <= j < |succ| then
        assert Live(succ[j]) && Scored(succ[j]);
        Evaluate(Lookahead(succ[j], level, maxDepth, a, b, fullSearch, u), fullSearch, u)
      else 0
  }

  /** What a child search returns: the recursive call one level down, with the given bounds. */
  function Lookahead(c: BoardState, level: int, maxDepth: int, alpha: int, beta: int, fullSearch: bool, u: Unseen)
    : (r: BoardState)
    requires Live(c) && Scored(c) && level < maxDepth && Bounded(u)
    ensures Searchable(r) && Scored(r) && -Win <= Evaluate(r, fullSearch, u) <= Win
    decreases maxDepth - level, 0
  {
    var r := AlphaBeta(c, level + 1, maxDepth, alpha, beta, fullSearch, u).value;
    EvaluateBound(r, fullSearch, u);
    r
  }

  /**
   * A running node with a move whose bound cannot be reached (beta above Win
   * for BLACK, alpha below -Win for WHITE) searches every child and answers
   * the first ordered successor with the best value.
   */
  lemma AlphaBetaUnpruned(s: BoardState, level: int, maxDepth: int, alpha: int, beta: int, fullSearch: bool, u: Unseen)
    requires Searchable(s) && Scored(s) && level < maxDepth && Bounded(u)
    requires !s.gameEnded && CurrentPlayer(s).validMoves != []
    requires s.playerTurn == BLACK ==> beta > Win
    requires s.playerTurn != BLACK ==> alpha < -Win
    ensures var black, succ := s.playerTurn == BLACK, Ordered(s, fullSearch, u);
      var value := Values(succ, level, maxDepth, fullSearch, u);
      var o, vals := Loop(|succ|, value, 0, alpha, beta, black, Start(black), -1), Trace(|succ|, value, 0, alpha, beta, black);
      |vals| == |succ| && o.Best? && 0 <= o.index < |succ| &&
      AlphaBeta(s, level, maxDepth, alpha, beta, fullSearch, u) == Some(succ[o.index]) &&
      (forall j :: 0 <= j < |succ| ==> !Beats(vals[j], vals[o.index], black)) &&
      (forall j :: 0 <= j < o.index ==> Beats(vals[o.index], vals[j], black))
  {
    var black, succ := s.playerTurn == BLACK, Ordered(s, fullSearch, u);
    LoopChoice(|succ|, Values(succ, level, maxDepth, fullSearch, u), alpha, beta, black);
    AlphaBetaBest(s, level, maxDepth, alpha, beta, fullSearch, u);
  }

  /**
   * A node whose loop prunes answers a look-ahead board whose value reached
   * the node's bound: at least beta for BLACK, at most alpha for WHITE.
   */
  lemma AlphaBetaPruned(s: BoardState, level: int, maxDepth: int, alpha: int, beta: int, fullSearch: bool, u: Unseen)
    requires Searchable(s) && Scored(s) && level < maxDepth && Bounded(u) && !s.gameEnded
    requires var succ := Ordered(s, fullSearch, u);
      Loop(|succ|, Values(succ, level, maxDepth, fullSearch, u), 0, alpha, beta, s.playerTurn == BLACK, Start(s.playerTurn == BLACK), -1).Cut?
    ensures var r := AlphaBeta(s, level, maxDepth, alpha, beta, fullSearch, u);
      r.Some? &&
      (s.playerTurn == BLACK ==> Evaluate(r.value, fullSearch, u) >= beta) &&
      (s.playerTurn != BLACK ==> Evaluate(r.value, fullSearch, u) <= alpha)
  {
    var black, succ := s.playerTurn == BLACK, Ordered(s, fullSearch, u);
    var value := Values(succ, level, maxDepth, fullSearch, u);
    LoopPruned(|succ|, value, 0, alpha, beta, black, Start(black), -1);
    AlphaBetaSettles(s, level, maxDepth, alpha, beta, fullSearch, u);
  }

  /** A node whose loop ends with a best child answers that child. */
  lemma AlphaBetaBest(s: BoardState, level: int, maxDepth: int, alpha: int, beta: int, fullSearch: bool, u: Unseen)
    requires Searchable(s) && Scored(s) && level < maxDepth && Bounded(u) && !s.gameEnded
    ensures var black, succ := s.playerTurn == BLACK, Ordered(s, fullSearch, u);
      var o := Loop(|succ|, Values(succ, level, maxDepth, fullSearch, u), 0, alpha, beta, black, Start(black), -1);
      o.Best? && 0 <= o.index ==> AlphaBeta(s, level, maxDepth, alpha, beta, fullSearch, u) == Some(succ[o.index])
  {
    AlphaBetaSettles(s, level, maxDepth, alpha, beta, fullSearch, u);
  }

  /** A running node answers what the loop over its ordered successors settles on. */
  lemma AlphaBetaSettles(s: BoardState, level: int, maxDepth: int, alpha: int, beta: int, fullSearch: bool, u: Unseen)
    requires Searchable(s) && Scored(s) && level < maxDepth && Bounded(u) && !s.gameEnded
    ensures var black, succ := s.playerTurn == BLACK, Ordered(s, fullSearch, u);
      var o := Loop(|succ|, Values(succ, level, maxDepth, fullSearch, u), 0, alpha, beta, black, Start(black), -1);
      AlphaBeta(s, level, maxDepth, alpha, beta, fullSearch, u) == Settle(succ, o, level, maxDepth, fullSearch, u)
  {
    var black, succ := s.playerTurn == BLACK, Ordered(s, fullSearch, u);
    assert AlphaBeta(s, level, maxDepth, alpha, beta, fullSearch, u) == Turn(s, level, maxDepth, alpha, beta, fullSearch, u);
    assert Turn(s, level, maxDepth, alpha, beta, fullSearch, u) == Answer(s, level, maxDepth, alpha, beta, s.playerTurn == BLACK, fullSearch, u);
  }

  /**
   * move's call alphaBeta(board, 0, depth, MIN_VALUE, MAX_VALUE, ...) never
   * prunes at the root (AlphaBetaUnpruned), so it answers one of the
   * successors, which FromSuccessor turns back into one of the mover's moves.
   */
  lemma AlphaBetaRoot(s: BoardState, maxDepth: int, fullSearch: bool, u: Unseen)
    requires Searchable(s) && Scored(s) && 0 < maxDepth && Bounded(u)
    requires !s.gameEnded && CurrentPlayer(s).validMoves != []
    ensures var r := AlphaBeta(s, 0, maxDepth, MinInt, MaxInt, fullSearch, u);
      r.Some? && r.value in Successors(s)
  {
    AlphaBetaUnpruned(s, 0, maxDepth, MinInt, MaxInt, fullSearch, u);
    OrderedSorts(s, fullSearch, u);
    var succ := Ordered(s, fullSearch, u);
    assert forall k :: 0 <= k < |succ| ==> succ[k] in multiset(succ);
  }

  /**
   * What getCommand and execute need to turn s into t: getCommand reads back
   * a move of the side to move, with its colour, and placing it on s gives t.
   */
  predicate Replays(s: BoardState, t: BoardState) {
    Searchable(s) && Shaped(t.grid) && t.grid.rows == s.grid.rows && t.grid.columns == s.grid.columns &&
    match RecoveredMove(s.grid, t.grid)
    case None => false
    case Some((m, c)) => c == s.playerTurn && m in CurrentPlayer(s).validMoves && t == PlaceDisk(s, m, c)
  }

  /** Every successor is the placement of one of the mover's moves, which getCommand reads back. */
  lemma FromSuccessor(s: BoardState, t: BoardState)
    requires Searchable(s) && t in Successors(s)
    ensures Replays(s, t)
  {
    var i :| 0 <= i < |Successors(s)| && Successors(s)[i] == t;
    RecoverSuccessor(s, i);
  }
}
