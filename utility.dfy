/**
 * Utility.java and BoardComparatorWhite.java: integer evaluations of a board
 * from BLACK's point of view, with a fixed value for ended games, and the
 * comparator that orders boards by utilityFinal.
 */
module Utilities {
  import opened Wrappers
  import opened Colors
  import opened Geometry
  import opened Grids
  import opened Rules
  import FlipProperties
  import BoardProperties

  /** The value of a board BLACK has won; it must exceed every inner value. */
  const Win := 10000

  /** Java's Integer.MIN_VALUE and Integer.MAX_VALUE. */
  const MinInt := -0x8000_0000
  const MaxInt := 0x7fff_ffff

  /**
   * gameEndedUtility: on an ended board, Win for a BLACK winner, -Win for a
   * WHITE winner and 0 otherwise; on a running board `value` is left as it was.
   */
  function GameEndedUtility(s: BoardState, value: int): (v: int)
    ensures !s.gameEnded ==> v == value
    ensures s.gameEnded ==>
      (v == Win <==> s.winner == Some(BLACK)) &&
      (v == -Win <==> s.winner == Some(WHITE)) &&
      (v == 0 <==> s.winner != Some(BLACK) && s.winner != Some(WHITE))
  {
    if s.gameEnded then
      if s.winner == Some(BLACK) then Win
      else if s.winner == Some(WHITE) then -Win
      else 0
    else value
  }

  /** The value every evaluator gives an ended board (a new Utility holds 0). */
  function Ended(s: BoardState): int {
    GameEndedUtility(s, 0)
  }

  /** utilityScoreDiff: the disk difference. */
  function UtilityScoreDiff(s: BoardState): int {
    if s.gameEnded then Ended(s) else s.black.score - s.white.score
  }

  /** utilityCorners: the corner difference. */
  function UtilityCorners(s: BoardState): (v: int)
    requires Countable(s.grid)
    ensures -Win <= v <= Win
  {
    if s.gameEnded then Ended(s) else CornersOwned(s.grid, BLACK) - CornersOwned(s.grid, WHITE)
  }

  /** utilityValidMoves: the difference in the number of legal moves. */
  function UtilityValidMoves(s: BoardState): int {
    if s.gameEnded then Ended(s) else |s.black.validMoves| - |s.white.validMoves|
  }

  /**
   * One side's term of utilityFinal: its moves, C- and X-squares next to an
   * empty corner (weights -63 + turn and -60 + turn), corners (weight 66 -
   * turn), and from turn 44 on its score.
   */
  function SideUtility(s: BoardState, player: PlayerState, color: Color): int
    requires Countable(s.grid)
  {
    |player.validMoves|
    + (-63 + s.turn) * BadCSquaresOwned(s.grid, color)
    + (-60 + s.turn) * BadXSquaresOwned(s.grid, color)
    + (66 - s.turn) * CornersOwned(s.grid, color)
    + (if s.turn >= 44 then player.score else 0)
  }

  /** utilityFinal: BLACK's term minus WHITE's term. */
  function UtilityFinal(s: BoardState): int
    requires Countable(s.grid)
  {
    if s.gameEnded then Ended(s) else SideUtility(s, s.black, BLACK) - SideUtility(s, s.white, WHITE)
  }

  /** Every evaluator agrees with gameEndedUtility on an ended board. */
  lemma EndedValues(s: BoardState)
    requires Countable(s.grid) && s.gameEnded
    ensures UtilityScoreDiff(s) == UtilityCorners(s) == UtilityValidMoves(s) == UtilityFinal(s) == Ended(s)
    ensures Ended(s) in {Win, -Win, 0}
    ensures Ended(s) == Win <==> s.winner == Some(BLACK)
    ensures Ended(s) == -Win <==> s.winner == Some(WHITE)
  {
  }

  /**
   * The score terms of utilityFinal count exactly from turn 44 on: changing
   * BLACK's score by d changes the value by d then, and not at all before.
   */
  lemma ScoreTermsFromTurn44(s: BoardState, score: int)
    requires Countable(s.grid) && !s.gameEnded
    ensures var t := s.(black := s.black.(score := score));
      UtilityFinal(t) - UtilityFinal(s) == if s.turn >= 44 then score - s.black.score else 0
  {
  }

  /** |w * n| <= b * m when |w| <= b and 0 <= n <= m. */
  lemma ScaleBound(w: int, n: int, b: int, m: int)
    requires -b <= w <= b && 0 <= n <= m
    ensures -b * m <= w * n <= b * m
  {
    assert w * n <= b * n <= b * m;
    assert -b * m <= -b * n <= w * n;
  }

  /**
   * What an 8 x 8 board can hold: at most 64 disks per side and 64 moves per
   * list, and a turn number between 1 and 61.
   */
  predicate Regulation(s: BoardState) {
    Countable(s.grid) &&
    0 <= s.black.score <= 64 && 0 <= s.white.score <= 64 &&
    |s.black.validMoves| <= 64 && |s.white.validMoves| <= 64 &&
    1 <= s.turn <= 61
  }

  /** A side's utilityFinal term on such a board lies within 1120 of zero. */
  lemma SideUtilityBound(s: BoardState, player: PlayerState, color: Color)
    requires Regulation(s) && (player == s.black || player == s.white)
    ensures -1120 <= SideUtility(s, player, color) <= 1120
  {
    ScaleBound(-63 + s.turn, BadCSquaresOwned(s.grid, color), 62, 8);
    ScaleBound(-60 + s.turn, BadXSquaresOwned(s.grid, color), 59, 4);
    ScaleBound(66 - s.turn, CornersOwned(s.grid, color), 65, 4);
  }

  /**
   * On a running regulation board every evaluator stays strictly inside
   * (-Win, Win), as gameEndedUtility's value must dominate the inner values.
   */
  lemma UtilityBounds(s: BoardState)
    requires Regulation(s) && !s.gameEnded
    ensures -Win < UtilityScoreDiff(s) < Win
    ensures -Win < UtilityCorners(s) < Win
    ensures -Win < UtilityValidMoves(s) < Win
    ensures -Win < UtilityFinal(s) < Win
  {
    SideUtilityBound(s, s.black, BLACK);
    SideUtilityBound(s, s.white, WHITE);
  }

  /** An 8 x 8 board whose scores count its disks, with fresh move lists and a turn of 1 to 61, is a regulation board. */
  lemma RegulationBoard(s: BoardState)
    requires Countable(s.grid) && s.grid.rows == 8 && s.grid.columns == 8
    requires FlipProperties.ScoresMatch(s) && 1 <= s.turn <= 61
    requires s.black.validMoves == ValidMoves(s.grid, BLACK) && s.white.validMoves == ValidMoves(s.grid, WHITE)
    ensures Regulation(s)
  {
    CountTotal(s.grid);
    MovesAtMost64(s.grid, BLACK);
    MovesAtMost64(s.grid, WHITE);
  }

  /** Player.updateValidMoves finds at most one move per tile of an 8 x 8 grid. */
  lemma MovesAtMost64(g: Grid, color: Color)
    requires Shaped(g) && g.rows == 8 && g.columns == 8
    ensures |ValidMoves(g, color)| <= 64
  {
    BoardProperties.ValidMovesFacts(g, color);
  }

  /** No corner of a new board of four or more rows holds a disk. */
  lemma InitialCornersEmpty(rows: int, columns: int)
    requires Initializable(rows, columns) && 4 <= rows && 2 <= columns
    ensures var g := InitialGrid(rows, columns);
      Countable(g) &&
      Empty(g, TopLeft(g)) && Empty(g, BottomLeft(g)) && Empty(g, TopRight(g)) && Empty(g, BottomRight(g))
  {
  }

  /** On a new board (8 x 8 or any other of four or more rows) the disk and corner differences are 0. */
  lemma InitialUtilities(rows: int, columns: int)
    requires Initializable(rows, columns) && 4 <= rows && 2 <= columns
    ensures var s := InitialState(rows, columns);
      Countable(s.grid) && UtilityScoreDiff(s) == 0 && UtilityCorners(s) == 0
  {
    InitialCornersEmpty(rows, columns);
  }

  /** Taking the corner (0, 0) with WHITE on a new board makes utilityCorners -1. */
  lemma WhiteCornerUtility(rows: int, columns: int)
    requires Initializable(rows, columns) && 4 <= rows && 2 <= columns
    ensures var s := InitialState(rows, columns);
      var t := s.(grid := SetTile(s.grid, Point(0, 0), WHITE));
      Countable(t.grid) && UtilityCorners(t) == -1
  {
    InitialCornersEmpty(rows, columns);
    var g := InitialGrid(rows, columns);
    var h := SetTile(g, Point(0, 0), WHITE);
    assert DiskColor(h, TopLeft(h)) == WHITE;
    assert Empty(h, BottomLeft(h)) && Empty(h, TopRight(h)) && Empty(h, BottomRight(h));
  }

  // ---------------------------------------------------------------- BoardComparatorWhite

  /**
   * compare: utilityFinal of the first board minus that of the second, so that
   * the board better for WHITE (lower value) sorts first.
   */
  function Compare(board1: BoardState, board2: BoardState): (r: int)
    requires Countable(board1.grid) && Countable(board2.grid)
    ensures r < 0 <==> UtilityFinal(board1) < UtilityFinal(board2)
    ensures r == 0 <==> UtilityFinal(board1) == UtilityFinal(board2)
  {
    UtilityFinal(board1) - UtilityFinal(board2)
  }

  /** The comparator laws: reflexive, antisymmetric, and transitive in sign. */
  lemma CompareLaws(a: BoardState, b: BoardState, c: BoardState)
    requires Countable(a.grid) && Countable(b.grid) && Countable(c.grid)
    ensures Compare(a, a) == 0
    ensures Compare(a, b) == -Compare(b, a)
    ensures Compare(a, b) <= 0 && Compare(b, c) <= 0 ==> Compare(a, c) <= 0
    ensures Compare(a, b) < 0 && Compare(b, c) < 0 ==> Compare(a, c) < 0
  {
  }

  /**
   * The Java subtraction cannot overflow: each utilityFinal of a regulation
   * board lies in [-Win, Win], so the difference fits in an int.
   */
  lemma CompareFits(board1: BoardState, board2: BoardState)
    requires Regulation(board1) && Regulation(board2)
    ensures -2 * Win <= Compare(board1, board2) <= 2 * Win
    ensures MinInt <= Compare(board1, board2) <= MaxInt
  {
    if !board1.gameEnded { UtilityBounds(board1); }
    if !board2.gameEnded { UtilityBounds(board2); }
  }
}
