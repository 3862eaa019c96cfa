/**
 * Concrete games on the standard 8 x 8 board, the ones the repository's own
 * tests walk through: the moves of a new board, the first two moves of BLACK,
 * and executing, undoing and redoing two commands.
 */
module Scenarios {
  import opened Wrappers
  import opened Colors
  import opened Geometry
  import opened Grids
  import opened Rules
  import opened FlipProperties
  import opened BoardProperties
  import opened CaptureRuns
  import opened MoveProperties
  import GameBoard
  import Commands
  import History
  import Search

  /** Two lists in row-major order with the same points are the same list. */
  lemma {:induction false} RowMajorUnique(xs: seq<Point>, ys: seq<Point>)
    requires RowMajor(xs) && RowMajor(ys)
    requires forall p :: p in xs <==> p in ys
    ensures xs == ys
    decreases |xs|
  {
    if xs == [] {
      if ys != [] {
        HeadIn(ys);
        assert false;
      }
    } else {
      HeadIn(xs);
      HeadIn(ys);
      var i :| 0 <= i < |xs| && xs[i] == ys[0];
      var j :| 0 <= j < |ys| && ys[j] == xs[0];
      // were i > 0, xs[0] would come Before ys[0] and ys[0] Before xs[0]
      assert xs[0] == ys[0];
      forall p
        ensures p in xs[1..] <==> p in ys[1..]
      {
        if p in xs[1..] {
          var k :| 0 <= k < |xs[1..]| && xs[1..][k] == p;
          assert xs[k + 1] == p && Before(xs[0], xs[k + 1]) && p in xs;
          var m :| 0 <= m < |ys| && ys[m] == p;
          assert ys[1..][m - 1] == p;
        }
        if p in ys[1..] {
          var k :| 0 <= k < |ys[1..]| && ys[1..][k] == p;
          assert ys[k + 1] == p && Before(ys[0], ys[k + 1]) && p in ys;
          var m :| 0 <= m < |xs| && xs[m] == p;
          assert xs[1..][m - 1] == p;
        }
      }
      RowMajorUnique(xs[1..], ys[1..]);
      assert xs == [xs[0]] + xs[1..] && ys == [ys[0]] + ys[1..];
    }
  }

  lemma HeadIn(ps: seq<Point>)
    requires ps != []
    ensures ps[0] in ps
  {
  }

  /** The legal points of a grid, given all of them in row-major order, are that list. */
  lemma MovesAre(g: Grid, color: Color, moves: seq<Point>)
    requires Shaped(g) && RowMajor(moves)
    requires forall p :: ValidMove(g, p, color) <==> p in moves
    ensures ValidMoves(g, color) == moves
  {
    ValidMovesFacts(g, color);
    RowMajorUnique(ValidMoves(g, color), moves);
  }

  /** A legal point brackets a run in one of the eight directions. */
  lemma InSomeDirection(g: Grid, p: Point, color: Color)
    requires Shaped(g) && ValidMove(g, p, color)
    ensures ValidPosition(g, p) && DiskColor(g, p) == NONE
    ensures exists dx, dy :: IsDirection(dx, dy) && ValidInDirection(g, p, color, dx, dy)
  {
    if ValidInDirection(g, p, color, 1, 0) { assert IsDirection(1, 0); }
    else if ValidInDirection(g, p, color, -1, 0) { assert IsDirection(-1, 0); }
    else if ValidInDirection(g, p, color, 0, 1) { assert IsDirection(0, 1); }
    else if ValidInDirection(g, p, color, 0, -1) { assert IsDirection(0, -1); }
    else if ValidInDirection(g, p, color, 1, 1) { assert IsDirection(1, 1); }
    else if ValidInDirection(g, p, color, 1, -1) { assert IsDirection(1, -1); }
    else if ValidInDirection(g, p, color, -1, 1) { assert IsDirection(-1, 1); }
    else { assert IsDirection(-1, -1); }
  }

  /** g holds the tiles of a new 8 x 8 board (stated tile by tile, so that g itself stays symbolic). */
  ghost predicate FreshTiles(g: Grid) {
    Shaped(g) && g.rows == 8 && g.columns == 8 &&
    forall q :: ValidPosition(g, q) ==> DiskColor(g, q) == InitialColor(8, q.y, q.x)
  }

  /** The legal points of each colour on a new 8 x 8 board, in row-major order. */
  function FreshMoves(color: Color): seq<Point> {
    if color == WHITE then [Point(3, 2), Point(2, 3), Point(5, 4), Point(4, 5)]
    else [Point(4, 2), Point(5, 3), Point(2, 4), Point(3, 5)]
  }

  /** On a new board a run can only be bracketed from one of the four points FreshMoves lists. */
  lemma FreshDirection(g: Grid, p: Point, color: Color, dx: int, dy: int)
    requires FreshTiles(g) && (color == BLACK || color == WHITE)
    requires IsDirection(dx, dy) && ValidInDirection(g, p, color, dx, dy)
    requires ValidPosition(g, p) && DiskColor(g, p) == NONE
    ensures p in FreshMoves(color)
  {
    var n := Step(p, dx, dy);
    var m := Step(n, dx, dy);
    assert DiskColor(g, n) == OppositeColor(color).value;
    assert ReachesColor(g, m, color, dx, dy);
    assert ValidPosition(g, m) && DiskColor(g, m) != NONE;
    // a second opponent disk on the ray would be followed by an empty tile
    assert DiskColor(g, m) != color ==> ReachesColor(g, Step(m, dx, dy), color, dx, dy);
    assert DiskColor(g, m) == color;
  }

  /** An empty tile next to an opponent disk that is followed by one of the mover's disks is legal. */
  lemma ShortBracket(g: Grid, p: Point, color: Color, dx: int, dy: int)
    requires Shaped(g) && IsDirection(dx, dy) && OppositeColor(color).Some?
    requires ValidPosition(g, p) && DiskColor(g, p) == NONE
    requires var n := Step(p, dx, dy);
      ValidPosition(g, n) && DiskColor(g, n) == OppositeColor(color).value &&
      ValidPosition(g, Step(n, dx, dy)) && DiskColor(g, Step(n, dx, dy)) == color
    ensures ValidInDirection(g, p, color, dx, dy) && ValidMove(g, p, color)
  {
    var n := Step(p, dx, dy);
    assert ReachesColor(g, Step(n, dx, dy), color, dx, dy);
    assert ValidInDirection(g, p, color, dx, dy);
    assert dx == 1 || dx == -1 || dx == 0;
    assert dy == 1 || dy == -1 || dy == 0;
  }

  /** Each point FreshMoves lists brackets the opponent disk next to it. */
  lemma FreshMovesLegal(g: Grid, color: Color)
    requires FreshTiles(g) && (color == BLACK || color == WHITE)
    ensures forall p :: p in FreshMoves(color) ==> ValidMove(g, p, color)
  {
    if color == WHITE {
      ShortBracket(g, Point(3, 2), color, 0, 1);
      ShortBracket(g, Point(2, 3), color, 1, 0);
      ShortBracket(g, Point(5, 4), color, -1, 0);
      ShortBracket(g, Point(4, 5), color, 0, -1);
    } else {
      ShortBracket(g, Point(4, 2), color, 0, 1);
      ShortBracket(g, Point(5, 3), color, -1, 0);
      ShortBracket(g, Point(2, 4), color, 1, 0);
      ShortBracket(g, Point(3, 5), color, 0, -1);
    }
  }

  /** On a new board BLACK may play (4,2), (5,3), (2,4), (3,5) and WHITE (3,2), (2,3), (5,4), (4,5). */
  lemma FreshValidMoves(g: Grid, color: Color)
    requires FreshTiles(g) && (color == BLACK || color == WHITE)
    ensures ValidMoves(g, color) == FreshMoves(color)
  {
    var moves := FreshMoves(color);
    forall p | ValidMove(g, p, color)
      ensures p in moves
    {
      InSomeDirection(g, p, color);
      var dx, dy :| IsDirection(dx, dy) && ValidInDirection(g, p, color, dx, dy);
      FreshDirection(g, p, color, dx, dy);
    }
    FreshMovesLegal(g, color);
    MovesAre(g, color, moves);
  }

  /** The tiles of InitialGrid(8, 8) are the tiles FreshTiles describes. */
  lemma InitialFresh()
    ensures FreshTiles(InitialGrid(8, 8))
  {
    var g := InitialGrid(8, 8);
    forall q | ValidPosition(g, q)
      ensures DiskColor(g, q) == InitialColor(8, q.y, q.x)
    {
    }
  }

  /** s is a new 8 x 8 board as the Board constructor leaves it, its grid kept symbolic. */
  ghost predicate NewState(s: BoardState) {
    FreshTiles(s.grid) &&
    s.black == PlayerState(BLACK, false, 2, ValidMoves(s.grid, BLACK)) &&
    s.white == PlayerState(WHITE, false, 2, ValidMoves(s.grid, WHITE)) &&
    s.playerTurn == BLACK && !s.gameEnded && s.winner == None && s.turn == 1
  }

  lemma InitialNew()
    ensures NewState(InitialState(8, 8))
  {
    InitialFresh();
  }

  lemma NewStateFacts(s: BoardState)
    requires NewState(s)
    ensures s.white.score == 2 && s.black.score == 2
    ensures s.white.validMoves == FreshMoves(WHITE) && s.black.validMoves == FreshMoves(BLACK)
    ensures Search.Searchable(s) && |Search.Successors(s)| == 4
  {
    FreshValidMoves(s.grid, WHITE);
    FreshValidMoves(s.grid, BLACK);
    ValidMovesFacts(s.grid, WHITE);
    ValidMovesFacts(s.grid, BLACK);
    assert Search.Searchable(s);
  }

  /**
   * A new 8 x 8 board: both players score 2, WHITE has four moves and BLACK
   * four, and the search expands it into four successors.
   */
  lemma NewBoardScenario()
    ensures var s := InitialState(8, 8);
      s.white.score == 2 && s.black.score == 2 &&
      s.white.validMoves == FreshMoves(WHITE) && s.black.validMoves == FreshMoves(BLACK) &&
      Search.Searchable(s) && |Search.Successors(s)| == 4
  {
    InitialNew();
    NewStateFacts(InitialState(8, 8));
  }

  // ---------------------------------------------------------------- captures of a concrete move

  /** A run of one opponent disk closed by one of the mover's disks: flipInDirection flips just that disk. */
  lemma SingleRun(s: BoardState, pos: Point, color: Color, dx: int, dy: int)
    requires Shaped(s.grid) && IsDirection(dx, dy) && OppositeColor(color).Some?
    requires var n := Step(pos, dx, dy);
      ValidPosition(s.grid, n) && DiskColor(s.grid, n) == OppositeColor(color).value &&
      ValidPosition(s.grid, Step(n, dx, dy)) && DiskColor(s.grid, Step(n, dx, dy)) == color
    ensures FlipInDirection(s, pos, color, dx, dy).points == [Step(pos, dx, dy)]
  {
    var n := Step(pos, dx, dy);
    var opponent := OppositeColor(color).value;
    assert ReachesColor(s.grid, Step(n, dx, dy), color, dx, dy);
    var s1 := FlipDisk(s, n, color);
    FlipDiskElsewhere(s, n, color, Step(n, dx, dy));
    assert FlipRun(s1, Step(n, dx, dy), color, opponent, dx, dy).points == [];
  }

  lemma RunsOnCons(s: BoardState, pos: Point, color: Color, dirs: seq<(int, int)>, dx: int, dy: int)
    requires Shaped(s.grid) && AllDirections(dirs) && dirs != [] && dirs[0] == (dx, dy)
    ensures IsDirection(dx, dy) && AllDirections(dirs[1..])
    ensures RunsOn(s, pos, color, dirs) == FlipInDirection(s, pos, color, dx, dy).points + RunsOn(s, pos, color, dirs[1..])
  {
    AllDirectionsTail(dirs);
  }

  /** The points flipCaptures collects are the eight runs in the order of Directions. */
  lemma RunsOnEight(s: BoardState, pos: Point, color: Color)
    requires Shaped(s.grid)
    ensures RunsOn(s, pos, color, Directions) ==
      FlipInDirection(s, pos, color, 1, 0).points + (FlipInDirection(s, pos, color, -1, 0).points +
      (FlipInDirection(s, pos, color, 0, 1).points + (FlipInDirection(s, pos, color, 0, -1).points +
      (FlipInDirection(s, pos, color, 1, 1).points + (FlipInDirection(s, pos, color, 1, -1).points +
      (FlipInDirection(s, pos, color, -1, 1).points + FlipInDirection(s, pos, color, -1, -1).points))))))
  {
    DirectionsValid();
    var d0 := Directions;
    RunsOnCons(s, pos, color, d0, 1, 0);
    var d1 := d0[1..];
    RunsOnCons(s, pos, color, d1, -1, 0);
    var d2 := d1[1..];
    RunsOnCons(s, pos, color, d2, 0, 1);
    var d3 := d2[1..];
    RunsOnCons(s, pos, color, d3, 0, -1);
    var d4 := d3[1..];
    RunsOnCons(s, pos, color, d4, 1, 1);
    var d5 := d4[1..];
    RunsOnCons(s, pos, color, d5, 1, -1);
    var d6 := d5[1..];
    RunsOnCons(s, pos, color, d6, -1, 1);
    var d7 := d6[1..];
    RunsOnCons(s, pos, color, d7, -1, -1);
    assert d7[1..] == [];
    var last := FlipInDirection(s, pos, color, -1, -1).points;
    assert last + [] == last;
  }

  /** No opponent disk next to pos in that direction: flipInDirection flips nothing. */
  lemma NoRun(s: BoardState, pos: Point, color: Color, dx: int, dy: int)
    requires Shaped(s.grid) && IsDirection(dx, dy) && OppositeColor(color).Some?
    requires var n := Step(pos, dx, dy); ValidPosition(s.grid, n) ==> DiskColor(s.grid, n) != OppositeColor(color).value
    ensures FlipInDirection(s, pos, color, dx, dy).points == []
  {
  }

  /** BLACK at (5,3) on a new board captures the WHITE disk at (4,3) and nothing else. */
  lemma FirstCaptures(s: BoardState)
    requires FreshTiles(s.grid)
    ensures Captures(s, Point(5, 3), BLACK) == [Point(4, 3)]
  {
    var p := Point(5, 3);
    CapturesBeforeMove(s, p, BLACK);
    RunsOnEight(s, p, BLACK);
    NoRun(s, p, BLACK, 1, 0);
    SingleRun(s, p, BLACK, -1, 0);
    NoRun(s, p, BLACK, 0, 1);
    NoRun(s, p, BLACK, 0, -1);
    NoRun(s, p, BLACK, 1, 1);
    NoRun(s, p, BLACK, 1, -1);
    NoRun(s, p, BLACK, -1, 1);
    NoRun(s, p, BLACK, -1, -1);
  }

  // ---------------------------------------------------------------- BLACK plays (5,3)

  /** The tiles after BLACK plays (5,3) on a new board: (4,3) has been captured. */
  function FirstMoveColor(q: Point): Color {
    if q == Point(3, 4) then WHITE
    else if (q.y == 3 && 3 <= q.x <= 5) || q == Point(4, 4) then BLACK
    else NONE
  }

  ghost predicate FirstMoveTiles(g: Grid) {
    Shaped(g) && g.rows == 8 && g.columns == 8 &&
    forall q :: ValidPosition(g, q) ==> DiskColor(g, q) == FirstMoveColor(q)
  }

  /** placeDisk(new Point(5, 3), BLACK) on a new board leaves the tiles FirstMoveColor describes. */
  lemma FirstMoveGrid(s: BoardState)
    requires FreshTiles(s.grid)
    ensures FirstMoveTiles(PlaceDisk(s, Point(5, 3), BLACK).grid)
  {
    PlaceDiskOutcome(s, Point(5, 3), BLACK);
    FirstCaptures(s);
  }

  /** After that move WHITE can bracket a run only from (3,2), (5,2) or (5,4). */
  lemma FirstMoveWhiteDirection(g: Grid, p: Point, dx: int, dy: int)
    requires FirstMoveTiles(g) && IsDirection(dx, dy) && ValidInDirection(g, p, WHITE, dx, dy)
    requires ValidPosition(g, p) && DiskColor(g, p) == NONE
    ensures p == Point(3, 2) || p == Point(5, 2) || p == Point(5, 4)
  {
    var n := Step(p, dx, dy);
    var m := Step(n, dx, dy);
    var m2 := Step(m, dx, dy);
    assert DiskColor(g, n) == BLACK;
    assert ReachesColor(g, m, WHITE, dx, dy);
    assert ValidPosition(g, m) && DiskColor(g, m) != NONE;
    // BLACK runs are at most three long, and the one WHITE disk is at (3,4)
    assert DiskColor(g, m) == BLACK ==> ReachesColor(g, m2, WHITE, dx, dy);
    assert DiskColor(g, m) == BLACK && DiskColor(g, m2) == BLACK ==> ReachesColor(g, Step(m2, dx, dy), WHITE, dx, dy);
  }

  /** WHITE's moves after BLACK plays (5,3): (3,2), (5,2), (5,4). */
  lemma FirstMoveWhiteMoves(g: Grid)
    requires FirstMoveTiles(g)
    ensures ValidMoves(g, WHITE) == [Point(3, 2), Point(5, 2), Point(5, 4)]
  {
    var moves := [Point(3, 2), Point(5, 2), Point(5, 4)];
    forall p | ValidMove(g, p, WHITE)
      ensures p in moves
    {
      InSomeDirection(g, p, WHITE);
      var dx, dy :| IsDirection(dx, dy) && ValidInDirection(g, p, WHITE, dx, dy);
      FirstMoveWhiteDirection(g, p, dx, dy);
    }
    ShortBracket(g, Point(3, 2), WHITE, 0, 1);
    ShortBracket(g, Point(5, 2), WHITE, -1, 1);
    ShortBracket(g, Point(5, 4), WHITE, -1, 0);
    MovesAre(g, WHITE, moves);
  }

  /** BLACK at (3,5) after (5,3) captures the last WHITE disk, at (3,4). */
  lemma SecondCaptures(s: BoardState)
    requires FirstMoveTiles(s.grid)
    ensures Captures(s, Point(3, 5), BLACK) == [Point(3, 4)]
  {
    var p := Point(3, 5);
    CapturesBeforeMove(s, p, BLACK);
    RunsOnEight(s, p, BLACK);
    NoRun(s, p, BLACK, 1, 0);
    NoRun(s, p, BLACK, -1, 0);
    NoRun(s, p, BLACK, 0, 1);
    SingleRun(s, p, BLACK, 0, -1);
    NoRun(s, p, BLACK, 1, 1);
    NoRun(s, p, BLACK, 1, -1);
    NoRun(s, p, BLACK, -1, 1);
    NoRun(s, p, BLACK, -1, -1);
  }

  // ---------------------------------------------------------------- BLACK then plays (3,5)

  /** The tiles after BLACK also plays (3,5): six BLACK disks and no WHITE one. */
  function SecondMoveColor(q: Point): Color {
    if (q.y == 3 && 3 <= q.x <= 5) || q == Point(4, 4) || q == Point(3, 4) || q == Point(3, 5) then BLACK
    else NONE
  }

  ghost predicate SecondMoveTiles(g: Grid) {
    Shaped(g) && g.rows == 8 && g.columns == 8 &&
    forall q :: ValidPosition(g, q) ==> DiskColor(g, q) == SecondMoveColor(q)
  }

  lemma SecondMoveGrid(s: BoardState)
    requires FirstMoveTiles(s.grid)
    ensures SecondMoveTiles(PlaceDisk(s, Point(3, 5), BLACK).grid)
  {
    PlaceDiskOutcome(s, Point(3, 5), BLACK);
    SecondCaptures(s);
  }

  /** A colour that is on no tile is never reached along a ray. */
  lemma {:induction false} AbsentNotReached(g: Grid, pos: Point, color: Color, dx: int, dy: int)
    requires Shaped(g) && IsDirection(dx, dy)
    requires forall q :: ValidPosition(g, q) ==> DiskColor(g, q) != color
    ensures !ReachesColor(g, pos, color, dx, dy)
    decreases Span(g.rows, g.columns, pos, dx, dy)
  {
    if ValidPosition(g, pos) && DiskColor(g, pos) != NONE {
      AbsentNotReached(g, Step(pos, dx, dy), color, dx, dy);
    }
  }

  /** With no WHITE disk left neither side has a legal point. */
  lemma SecondMoveNoMoves(g: Grid, color: Color)
    requires SecondMoveTiles(g)
    ensures ValidMoves(g, color) == []
  {
    forall p | true
      ensures !ValidMove(g, p, color)
    {
      if ValidMove(g, p, color) {
        InSomeDirection(g, p, color);
        var dx, dy :| IsDirection(dx, dy) && ValidInDirection(g, p, color, dx, dy);
        AbsentNotReached(g, Step(Step(p, dx, dy), dx, dy), WHITE, dx, dy);
        assert false;
      }
    }
    ValidMovesFacts(g, color);
    if ValidMoves(g, color) != [] {
      HeadIn(ValidMoves(g, color));
      assert false;
    }
  }

  // ---------------------------------------------------------------- the two moves as board states

  /** After a move the players keep their colours, and their lists are updateValidMoves' lists. */
  lemma MoveKeepsPlayers(s: BoardState, pos: Point, color: Color)
    requires Shaped(s.grid) && ValidPosition(s.grid, pos) && color != NONE && DiskColor(s.grid, pos) == NONE
    ensures var t := PlaceDisk(s, pos, color);
      t.black.color == s.black.color && t.white.color == s.white.color &&
      t.black.validMoves == ValidMoves(t.grid, s.black.color) &&
      t.white.validMoves == ValidMoves(t.grid, s.white.color) &&
      (color == BLACK ==>
         t.black.score == s.black.score + 1 + |Captures(s, pos, color)| &&
         t.white.score == s.white.score - |Captures(s, pos, color)|)
  {
    var f := FlipCaptures(FlipDisk(s, pos, color), pos, color);
    ExecuteScores(s, pos, color);
    UpdateBoardFrame(f.board);
  }

  /** BLACK plays (5,3) on a new board: the tile turns BLACK, the scores become 4 and 1, WHITE has three moves. */
  lemma FirstMoveFacts(s: BoardState)
    requires NewState(s)
    ensures var t := PlaceDisk(s, Point(5, 3), BLACK);
      FirstMoveTiles(t.grid) && DiskColor(t.grid, Point(5, 3)) == BLACK &&
      t.black.color == BLACK && t.white.color == WHITE &&
      t.black.score == 4 && t.white.score == 1 &&
      t.white.validMoves == [Point(3, 2), Point(5, 2), Point(5, 4)]
  {
    var p := Point(5, 3);
    FirstMoveGrid(s);
    FirstCaptures(s);
    MoveKeepsPlayers(s, p, BLACK);
    FirstMoveWhiteMoves(PlaceDisk(s, p, BLACK).grid);
  }

  /** BLACK then plays (3,5): scores 6 and 0, no moves for either side, and the game is over with BLACK the winner. */
  lemma SecondMoveFacts(t: BoardState)
    requires FirstMoveTiles(t.grid) && t.black.color == BLACK && t.white.color == WHITE
    requires t.black.score == 4 && t.white.score == 1
    ensures var u := PlaceDisk(t, Point(3, 5), BLACK);
      u.black.score == 6 && u.white.score == 0 &&
      u.black.validMoves == [] && u.white.validMoves == [] &&
      u.gameEnded && u.winner == Some(BLACK)
  {
    var p := Point(3, 5);
    SecondMoveGrid(t);
    SecondCaptures(t);
    MoveKeepsPlayers(t, p, BLACK);
    var g := PlaceDisk(t, p, BLACK).grid;
    SecondMoveNoMoves(g, BLACK);
    SecondMoveNoMoves(g, WHITE);
  }

  lemma TwoMovesFacts(s: BoardState)
    requires NewState(s)
    ensures var t := PlaceDisk(s, Point(5, 3), BLACK);
      Shaped(t.grid) && t.grid.rows == 8 && t.grid.columns == 8 &&
      var u := PlaceDisk(t, Point(3, 5), BLACK);
      u.black.score == 6 && u.white.score == 0 &&
      u.black.validMoves == [] && u.white.validMoves == [] && u.gameEnded && u.winner == Some(BLACK)
  {
    FirstMoveFacts(s);
    SecondMoveFacts(PlaceDisk(s, Point(5, 3), BLACK));
  }

  // ---------------------------------------------------------------- the games of the tests

  /**
   * Board.placeDisk(new Point(5, 3), BLACK) on new Board(8, 8): the tile holds
   * a BLACK disk, BLACK scores 4 and WHITE 1, and WHITE is left with three moves.
   */
  lemma PlaceDiskScenario()
    ensures var t := PlaceDisk(InitialState(8, 8), Point(5, 3), BLACK);
      Shaped(t.grid) && t.grid.rows == 8 && t.grid.columns == 8 &&
      DiskColor(t.grid, Point(5, 3)) == BLACK && t.black.score == 4 && t.white.score == 1 &&
      t.white.validMoves == [Point(3, 2), Point(5, 2), Point(5, 4)]
  {
    InitialNew();
    FirstMoveFacts(InitialState(8, 8));
  }

  /**
   * placeDisk at (5,3) and then at (3,5) for BLACK on a new board: BLACK has
   * taken every disk, 6 to 0, neither side has a move and the game has ended.
   */
  lemma GameEndScenario()
    ensures var t := PlaceDisk(InitialState(8, 8), Point(5, 3), BLACK);
      Shaped(t.grid) && t.grid.rows == 8 && t.grid.columns == 8 &&
      var u := PlaceDisk(t, Point(3, 5), BLACK);
      u.black.score == 6 && u.white.score == 0 &&
      u.black.validMoves == [] && u.white.validMoves == [] && u.gameEnded
  {
    InitialNew();
    TwoMovesFacts(InitialState(8, 8));
  }

  // ---------------------------------------------------------------- undo and redo

  /** The loop of undo recolours only the tiles of its list. */
  lemma {:induction false} FlipAllElsewhere(s: BoardState, pts: seq<Point>, c: Color, q: Point)
    requires Shaped(s.grid) && forall p :: p in pts ==> ValidPosition(s.grid, p)
    requires ValidPosition(s.grid, q) && q !in pts
    ensures DiskColor(FlipAll(s, pts, c).grid, q) == DiskColor(s.grid, q)
    decreases |pts|
  {
    if pts != [] {
      var t := FlipDisk(s, pts[0], c);
      FlipDiskElsewhere(s, pts[0], c, q);
      assert forall p :: p in pts[1..] ==> p in pts;
      FlipAllElsewhere(t, pts[1..], c, q);
    }
  }

  /** Command.undo leaves the destination empty when it is not among the points it flips back. */
  lemma UndoEmptiesDestination(s: BoardState, color: Color, destination: Point, captured: seq<Point>)
    requires Shaped(s.grid) && ValidPosition(s.grid, destination)
    requires forall q :: q in captured ==> ValidPosition(s.grid, q)
    requires color != NONE || captured == []
    requires destination !in captured
    ensures var u := UndoMove(s, color, destination, captured);
      Shaped(u.grid) && ValidPosition(u.grid, destination) && DiskColor(u.grid, destination) == NONE
  {
    var opponent := if color == NONE then NONE else OppositeColor(color).value;
    var r := RemoveDisk(s, destination);
    FlipAllElsewhere(r, captured, opponent, destination);
    UpdateBoardFrame(FlipAll(r, captured, opponent));
  }

  /** m steps from p in a unit direction stay in p's row, column or one of its diagonals. */
  lemma OnLine(p: Point, dx: int, dy: int, m: int)
    requires IsDirection(dx, dy) && 1 <= m
    ensures var r := RayPoint(p, dx, dy, m);
      r.x == p.x || r.y == p.y || r.x - p.x == r.y - p.y || r.x - p.x == p.y - r.y
  {
    if dx == 0 || dy == 0 {
    } else if dx == dy {
      assert m * dx == m * dy;
    } else {
      assert dx == -dy;
      assert m * dx == -(m * dy);
    }
  }

  /** Such a point is in none of the runs flipInDirection flips. */
  lemma OffRayNotInRun(s: BoardState, pos: Point, color: Color, dx: int, dy: int, q: Point)
    requires Shaped(s.grid) && IsDirection(dx, dy)
    requires q.x != pos.x && q.y != pos.y && q.x - pos.x != q.y - pos.y && q.x - pos.x != pos.y - q.y
    ensures q !in FlipInDirection(s, pos, color, dx, dy).points
  {
    var run := FlipInDirection(s, pos, color, dx, dy).points;
    FlipInDirectionOutcome(s, pos, color, dx, dy);
    forall k | 0 <= k < |run|
      ensures run[k] != q
    {
      assert run[k] == RayPoint(Step(pos, dx, dy), dx, dy, k);
      RayPointStep(pos, dx, dy, k);
      OnLine(pos, dx, dy, k + 1);
    }
  }

  /**
   * A move captures only along its eight rays: a point in none of the row,
   * column and diagonals of pos is never among the captures.
   */
  lemma OffRaysNotCaptured(s: BoardState, pos: Point, color: Color, q: Point)
    requires Shaped(s.grid) && ValidPosition(s.grid, pos)
    requires q.x != pos.x && q.y != pos.y && q.x - pos.x != q.y - pos.y && q.x - pos.x != pos.y - q.y
    ensures q !in Captures(s, pos, color)
  {
    CapturesExactly(s, pos, color);
    DirectionsValid();
    forall i | 0 <= i < |Directions|
      ensures q !in FlipInDirection(s, pos, color, Directions[i].0, Directions[i].1).points
    {
      OffRayNotInRun(s, pos, color, Directions[i].0, Directions[i].1, q);
    }
  }

  /** placeDisk leaves its own colour on the destination. */
  lemma PlaceSetsTile(s: BoardState, pos: Point, color: Color)
    requires Shaped(s.grid) && ValidPosition(s.grid, pos) && color != NONE
    ensures pos !in Captures(s, pos, color)
    ensures var t := PlaceDisk(s, pos, color);
      Shaped(t.grid) && t.grid.rows == s.grid.rows && t.grid.columns == s.grid.columns &&
      DiskColor(t.grid, pos) == color
  {
    PlaceDiskOutcome(s, pos, color);
  }

  /** placeDisk leaves alone a tile in none of the row, column and diagonals of the destination. */
  lemma PlaceKeepsOffRay(s: BoardState, pos: Point, color: Color, q: Point)
    requires Shaped(s.grid) && ValidPosition(s.grid, pos) && ValidPosition(s.grid, q) && color != NONE
    requires q.x != pos.x && q.y != pos.y && q.x - pos.x != q.y - pos.y && q.x - pos.x != pos.y - q.y
    ensures var t := PlaceDisk(s, pos, color);
      Shaped(t.grid) && t.grid.rows == s.grid.rows && t.grid.columns == s.grid.columns &&
      DiskColor(t.grid, q) == DiskColor(s.grid, q)
  {
    PlaceDiskOutcome(s, pos, color);
    OffRaysNotCaptured(s, pos, color, q);
  }

  /** The stacks through the session: execute c1 and c2, undo twice, redo twice. */
  lemma SessionStacks<T>(c1: T, c2: T)
    ensures var h1 := History.Execute(History.Stacks([], []), c1);
      var h2 := History.Execute(h1, c2);
      var h3 := History.Undo(h2);
      var h4 := History.Undo(h3);
      var h5 := History.Redo(h4);
      h1 == History.Stacks([c1], []) && h2 == History.Stacks([c1, c2], []) &&
      h3 == History.Stacks([c1], [c2]) && h4 == History.Stacks([], [c2, c1]) &&
      h5 == History.Stacks([c1], [c2]) && History.Redo(h5) == History.Stacks([c1, c2], [])
  {
    assert [c1, c2][..1] == [c1];
    assert [c2, c1][..1] == [c2];
  }

  /**
   * The undo and redo session of CommandManagerTest on a new 8 x 8 board:
   * BLACK plays (3,5) and WHITE (2,3) through the manager, both moves are
   * undone and then redone. The tile (3,5) is read after the first execute,
   * after the two undos and after the two redos; the stack sizes are read at
   * the start and at those three points.
   */
  method CommandManagerSession() returns (executed: Color, undone: Color, redone: Color, sizes: seq<(int, int)>)
    ensures executed == BLACK && undone == NONE && redone == BLACK
    ensures sizes == [(0, 0), (1, 0), (0, 2), (2, 0)]
  {
    var board := new GameBoard.Board(8, 8);
    executed, undone, redone, sizes := Session(board);
  }

  /**
   * The same session on any board of at least 6 x 4 tiles: none of its
   * observations depends on the tiles the board starts with.
   */
  method Session(board: GameBoard.Board) returns (executed: Color, undone: Color, redone: Color, sizes: seq<(int, int)>)
    requires board.Valid() && board.rows >= 6 && board.columns >= 4
    modifies board.tile, board.blackPlayer`score, board.whitePlayer`score, board.blackPlayer`validMoves, board.whitePlayer`validMoves
    modifies board`playerTurn, board`turn, board`gameEnded, board`winner
    ensures executed == BLACK && undone == NONE && redone == BLACK
    ensures sizes == [(0, 0), (1, 0), (0, 2), (2, 0)]
  {
    var manager := new Commands.CommandManager(board);
    var command := new Commands.Command(board, BLACK, Point(3, 5));
    var command2 := new Commands.Command(board, WHITE, Point(2, 3));
    sizes := [(|manager.undos|, |manager.redos|)];
    var first;
    executed, first := ExecuteBoth(board, manager, command, command2);
    sizes := sizes + [first];
    UndoBoth(board, manager, command, command2);
    undone := board.tile[5, 3];
    sizes := sizes + [(|manager.undos|, |manager.redos|)];
    RedoBoth(board, manager, command, command2);
    redone := board.tile[5, 3];
    sizes := sizes + [(|manager.undos|, |manager.redos|)];
  }

  /**
   * The two executes of the session: (3,5) holds BLACK after the first, which
   * leaves one command on the undo stack and none on the redo stack.
   */
  method ExecuteBoth(board: GameBoard.Board, manager: Commands.CommandManager, command: Commands.Command, command2: Commands.Command)
    returns (executed: Color, sizes: (int, int))
    requires manager.Valid() && manager.board == board && board.rows >= 6 && board.columns >= 4
    requires manager.undos == [] && manager.redos == []
    requires command.board == board && command.color == BLACK && command.destination == Point(3, 5)
    requires command2.board == board && command2.destination == Point(2, 3)
    modifies manager, command, command2, board.tile, board.blackPlayer`score, board.whitePlayer`score
    modifies board.blackPlayer`validMoves, board.whitePlayer`validMoves
    modifies board`playerTurn, board`turn, board`gameEnded, board`winner
    ensures manager.Valid() && manager.undos == [command, command2] && manager.redos == []
    ensures Point(3, 5) !in command.capturedPoints
    ensures executed == BLACK && sizes == (1, 0)
  {
    ghost var s0 := board.State();
    manager.ExecuteCommand(command);
    PlaceSetsTile(s0, Point(3, 5), BLACK);
    executed := board.tile[5, 3];
    sizes := (|manager.undos|, |manager.redos|);
    manager.ExecuteCommand(command2);
  }

  /** The two undos of the session: (3,5) is empty again and both commands are on the redo stack. */
  method UndoBoth(board: GameBoard.Board, manager: Commands.CommandManager, command: Commands.Command, command2: Commands.Command)
    requires manager.Valid() && manager.board == board && board.rows >= 6 && board.columns >= 4
    requires manager.undos == [command, command2] && manager.redos == []
    requires command.color == BLACK && command.destination == Point(3, 5) && Point(3, 5) !in command.capturedPoints
    modifies manager, board.tile, board.blackPlayer`score, board.whitePlayer`score, board.blackPlayer`validMoves, board.whitePlayer`validMoves
    modifies board`playerTurn, board`turn, board`gameEnded, board`winner
    ensures manager.Valid() && manager.undos == [] && manager.redos == [command2, command]
    ensures command.capturedPoints == old(command.capturedPoints) && board.tile[5, 3] == NONE
  {
    manager.Undo();
    UndoLast(board, manager, command, command2);
  }

  /** The second undo of the session takes back BLACK's move and empties (3,5). */
  method UndoLast(board: GameBoard.Board, manager: Commands.CommandManager, command: Commands.Command, command2: Commands.Command)
    requires manager.Valid() && manager.board == board
    requires manager.undos == [command] && manager.redos == [command2]
    requires command.color == BLACK && command.destination == Point(3, 5) && Point(3, 5) !in command.capturedPoints
    modifies manager, board.tile, board.blackPlayer`score, board.whitePlayer`score, board.blackPlayer`validMoves, board.whitePlayer`validMoves
    modifies board`playerTurn, board`turn, board`gameEnded, board`winner
    ensures manager.Valid() && manager.undos == [] && manager.redos == [command2, command]
    ensures command.capturedPoints == old(command.capturedPoints) && board.tile[5, 3] == NONE
  {
    assert command in manager.undos;
    ghost var s := board.State();
    manager.Undo();
    UndoEmptiesDestination(s, BLACK, Point(3, 5), command.capturedPoints);
  }

  /** The two redos of the session: (3,5) holds BLACK again and both commands are back on the undo stack. */
  method RedoBoth(board: GameBoard.Board, manager: Commands.CommandManager, command: Commands.Command, command2: Commands.Command)
    requires manager.Valid() && manager.board == board && board.rows >= 6 && board.columns >= 4
    requires manager.undos == [] && manager.redos == [command2, command]
    requires command.color == BLACK && command.destination == Point(3, 5)
    requires command2.color == WHITE && command2.destination == Point(2, 3)
    modifies manager, command, command2, board.tile, board.blackPlayer`score, board.whitePlayer`score
    modifies board.blackPlayer`validMoves, board.whitePlayer`validMoves
    modifies board`playerTurn, board`turn, board`gameEnded, board`winner
    ensures manager.undos == [command, command2] && manager.redos == [] && board.tile[5, 3] == BLACK
  {
    ghost var s4 := board.State();
    manager.Redo();
    ghost var s5 := board.State();
    PlaceSetsTile(s4, Point(3, 5), BLACK);
    manager.Redo();
    PlaceKeepsOffRay(s5, Point(2, 3), command2.color, Point(3, 5));
  }
}
