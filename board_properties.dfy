/**
 * What the read-only rules of Board.java and Player.java mean: validInDirection
 * against an independent description of a bracketed run, validMove as "some
 * direction brackets", the move list of updateValidMoves (exactly the legal
 * points, row-major, no duplicates), updateTurn and updateGameStatus, and the
 * invariant updateBoard establishes that the side to move can move unless the
 * game has ended.
 */
module BoardProperties {
  import opened Wrappers
  import opened Colors
  import opened Geometry
  import opened Grids
  import opened Rules
  import opened FlipProperties

  // ---------------------------------------------------------------- bracketed runs

  /**
   * Tiles i..n of the ray from pos are on the board; those before n hold
   * `opponent` and tile n holds `color`.
   */
  ghost predicate Segment(g: Grid, pos: Point, dx: int, dy: int, i: int, n: int, color: Color, opponent: Color)
    requires Shaped(g)
  {
    i <= n &&
    forall k :: i <= k <= n ==>
      ValidPosition(g, RayPoint(pos, dx, dy, k)) &&
      DiskColor(g, RayPoint(pos, dx, dy, k)) == (if k < n then opponent else color)
  }

  /**
   * A disk of `color` at pos brackets (dx, dy): one or more opponent disks
   * next to pos along the ray, then a disk of `color`.
   */
  ghost predicate Brackets(g: Grid, pos: Point, color: Color, dx: int, dy: int)
    requires Shaped(g)
  {
    OppositeColor(color).Some? &&
    exists n :: 2 <= n && Segment(g, pos, dx, dy, 1, n, color, OppositeColor(color).value)
  }

  /** The ray walk of validInDirection from tile i on reaches a disk of color exactly when a segment from tile i ends in one. */
  ghost predicate FindsSegment(g: Grid, pos: Point, color: Color, dx: int, dy: int, i: int)
    requires Shaped(g) && IsDirection(dx, dy) && color != NONE
  {
    OppositeColor(color).Some? &&
    (ReachesColor(g, RayPoint(pos, dx, dy, i), color, dx, dy) <==>
     exists n :: Segment(g, pos, dx, dy, i, n, color, OppositeColor(color).value))
  }

  /** The ray walk of validInDirection, from tile i on, finds a bracketing segment and only then. */
  lemma {:induction false} ReachesSegment(g: Grid, pos: Point, color: Color, dx: int, dy: int, i: int)
    requires Shaped(g) && IsDirection(dx, dy) && color != NONE
    ensures OppositeColor(color).Some? && FindsSegment(g, pos, color, dx, dy, i)
    decreases Span(g.rows, g.columns, RayPoint(pos, dx, dy, i), dx, dy)
  {
    var opponent := OppositeColor(color).value;
    var p := RayPoint(pos, dx, dy, i);
    RayPointStep(pos, dx, dy, i);
    if !ValidPosition(g, p) {
      forall n ensures !Segment(g, pos, dx, dy, i, n, color, opponent) {
        assert !ValidPosition(g, RayPoint(pos, dx, dy, i));
      }
    } else if DiskColor(g, p) == color {
      assert Segment(g, pos, dx, dy, i, i, color, opponent);
    } else if DiskColor(g, p) == NONE {
      forall n ensures !Segment(g, pos, dx, dy, i, n, color, opponent) {
        assert DiskColor(g, RayPoint(pos, dx, dy, i)) == NONE;
      }
    } else {
      ReachesSegment(g, pos, color, dx, dy, i + 1);
      SegmentStep(g, pos, color, dx, dy, i);
    }
  }

  /** Over an opponent disk at tile i, the walk from tile i finds a segment exactly when the walk from tile i + 1 does. */
  lemma SegmentStep(g: Grid, pos: Point, color: Color, dx: int, dy: int, i: int)
    requires Shaped(g) && IsDirection(dx, dy) && color != NONE
    requires var p := RayPoint(pos, dx, dy, i);
      ValidPosition(g, p) && DiskColor(g, p) == OppositeColor(color).value
    requires FindsSegment(g, pos, color, dx, dy, i + 1)
    ensures FindsSegment(g, pos, color, dx, dy, i)
  {
    var opponent := OppositeColor(color).value;
    RayPointStep(pos, dx, dy, i);
    if ReachesColor(g, RayPoint(pos, dx, dy, i + 1), color, dx, dy) {
      var n :| Segment(g, pos, dx, dy, i + 1, n, color, opponent);
      assert Segment(g, pos, dx, dy, i, n, color, opponent);
    }
    if n :| Segment(g, pos, dx, dy, i, n, color, opponent) {
      assert n != i;
      assert Segment(g, pos, dx, dy, i + 1, n, color, opponent);
    }
  }

  /** validInDirection holds exactly when the direction brackets a run of opponent disks. */
  lemma ValidInDirectionBrackets(g: Grid, pos: Point, color: Color, dx: int, dy: int)
    requires Shaped(g) && IsDirection(dx, dy)
    ensures ValidInDirection(g, pos, color, dx, dy) <==> Brackets(g, pos, color, dx, dy)
  {
    if color != NONE {
      var opponent := OppositeColor(color).value;
      RayPointStep(pos, dx, dy, 0);
      RayPointStep(pos, dx, dy, 1);
      assert RayPoint(pos, dx, dy, 0) == pos;
      ReachesSegment(g, pos, color, dx, dy, 2);
      if ValidInDirection(g, pos, color, dx, dy) {
        var n :| Segment(g, pos, dx, dy, 2, n, color, opponent);
        assert Segment(g, pos, dx, dy, 1, n, color, opponent);
      }
      if Brackets(g, pos, color, dx, dy) {
        var n :| 2 <= n && Segment(g, pos, dx, dy, 1, n, color, opponent);
        assert Segment(g, pos, dx, dy, 2, n, color, opponent);
        assert ValidPosition(g, RayPoint(pos, dx, dy, 1));
      }
    }
  }

  /**
   * validMove: an on-board empty tile, a real colour, and some unit direction
   * brackets a run.
   */
  lemma ValidMoveBrackets(g: Grid, pos: Point, color: Color)
    requires Shaped(g)
    ensures ValidMove(g, pos, color) <==>
      ValidPosition(g, pos) && color != NONE && DiskColor(g, pos) == NONE &&
      exists dx, dy :: IsDirection(dx, dy) && Brackets(g, pos, color, dx, dy)
  {
    if ValidPosition(g, pos) && color != NONE && DiskColor(g, pos) == NONE {
      ValidInDirectionBrackets(g, pos, color, 1, 0);
      ValidInDirectionBrackets(g, pos, color, -1, 0);
      ValidInDirectionBrackets(g, pos, color, 0, 1);
      ValidInDirectionBrackets(g, pos, color, 0, -1);
      ValidInDirectionBrackets(g, pos, color, 1, 1);
      ValidInDirectionBrackets(g, pos, color, 1, -1);
      ValidInDirectionBrackets(g, pos, color, -1, 1);
      ValidInDirectionBrackets(g, pos, color, -1, -1);
      if exists dx, dy :: IsDirection(dx, dy) && Brackets(g, pos, color, dx, dy) {
        var dx, dy :| IsDirection(dx, dy) && Brackets(g, pos, color, dx, dy);
        ValidInDirectionBrackets(g, pos, color, dx, dy);
      }
    }
  }

  // ---------------------------------------------------------------- the move list

  /** p comes before q in the row-major scan of updateValidMoves. */
  predicate Before(p: Point, q: Point) {
    p.y < q.y || (p.y == q.y && p.x < q.x)
  }

  predicate RowMajor(ps: seq<Point>) {
    forall i, j :: 0 <= i < j < |ps| ==> Before(ps[i], ps[j])
  }

  lemma RowMajorNoDup(ps: seq<Point>)
    requires RowMajor(ps)
    ensures NoDup(ps)
  {
    forall i, j | 0 <= i < j < |ps|
      ensures ps[i] != ps[j]
    {
      assert Before(ps[i], ps[j]);
    }
  }

  lemma RowMajorAppend(a: seq<Point>, b: seq<Point>)
    requires RowMajor(a) && RowMajor(b)
    requires forall p, q :: p in a && q in b ==> Before(p, q)
    ensures RowMajor(a + b)
  {
    forall i, j | 0 <= i < j < |a + b|
      ensures Before((a + b)[i], (a + b)[j])
    {
      if i < |a| && j >= |a| {
        assert (a + b)[i] in a && (a + b)[j] in b;
      }
    }
  }

  /** One more column of updateValidMoves' inner loop: its point is appended if it is legal. */
  lemma AppendMove(before: seq<Point>, g: Grid, color: Color, row: int, col: int, valid: bool)
    requires Shaped(g) && 0 <= col && valid == ValidMove(g, Point(col, row), color)
    ensures before + RowMoves(g, color, row, col + 1) ==
            (before + RowMoves(g, color, row, col)) + (if valid then [Point(col, row)] else [])
  {
    var next := if valid then [Point(col, row)] else [];
    assert RowMoves(g, color, row, col + 1) == RowMoves(g, color, row, col) + next;
    assert before + (RowMoves(g, color, row, col) + next) == (before + RowMoves(g, color, row, col)) + next;
  }

  /** The legal points among the first n columns of a row: exactly the legal tiles there. */
  lemma {:induction false} RowMovesMembers(g: Grid, color: Color, row: int, n: int)
    requires Shaped(g)
    ensures forall p :: p in RowMoves(g, color, row, n) <==> p.y == row && p.x < n && ValidMove(g, p, color)
    decreases n
  {
    if n > 0 {
      var prefix := RowMoves(g, color, row, n - 1);
      var q := Point(n - 1, row);
      var last := if ValidMove(g, q, color) then [q] else [];
      assert RowMoves(g, color, row, n) == prefix + last;
      RowMovesMembers(g, color, row, n - 1);
      forall p: Point
        ensures p in prefix + last <==> p.y == row && p.x < n && ValidMove(g, p, color)
      {
        if p == q {
        } else {
          assert p in last ==> p == q;
        }
      }
    }
  }

  /** The legal points of a row are listed left to right, at most one per column. */
  lemma {:induction false} RowMovesOrder(g: Grid, color: Color, row: int, n: int)
    requires Shaped(g)
    ensures forall p :: p in RowMoves(g, color, row, n) ==> p.y == row && p.x < n
    ensures RowMajor(RowMoves(g, color, row, n))
    ensures |RowMoves(g, color, row, n)| <= if n < 0 then 0 else n
    decreases n
  {
    if n > 0 {
      var prefix := RowMoves(g, color, row, n - 1);
      var q := Point(n - 1, row);
      var last := if ValidMove(g, q, color) then [q] else [];
      assert RowMoves(g, color, row, n) == prefix + last;
      RowMovesOrder(g, color, row, n - 1);
      RowOrderStep(prefix, last, row, n);
    }
  }

  /** A row-major list of points of row `row` left of column n - 1, followed by nothing or by column n - 1. */
  lemma RowOrderStep(prefix: seq<Point>, last: seq<Point>, row: int, n: int)
    requires 0 < n && (last == [] || last == [Point(n - 1, row)])
    requires (forall p :: p in prefix ==> p.y == row && p.x < n - 1) && RowMajor(prefix) && |prefix| <= n - 1
    ensures (forall p :: p in prefix + last ==> p.y == row && p.x < n) && RowMajor(prefix + last) && |prefix + last| <= n
  {
    RowMajorAppend(prefix, last);
  }

  /** The legal points of the first m rows: exactly the legal tiles there. */
  lemma {:induction false} MovesBeforeMembers(g: Grid, color: Color, m: int)
    requires Shaped(g)
    ensures forall p :: p in MovesBefore(g, color, m) <==> p.y < m && ValidMove(g, p, color)
    decreases m
  {
    if m > 0 {
      MovesBeforeMembers(g, color, m - 1);
      RowMovesMembers(g, color, m - 1, g.columns);
      forall p | ValidMove(g, p, color) && p.y == m - 1
        ensures p.x < g.columns
      {
      }
    } else {
      forall p | ValidMove(g, p, color)
        ensures p.y >= 0
      {
      }
    }
  }

  /** The legal points of the first m rows are listed row-major, at most m * columns of them. */
  lemma {:induction false} MovesBeforeOrder(g: Grid, color: Color, m: int)
    requires Shaped(g)
    ensures forall p :: p in MovesBefore(g, color, m) ==> p.y < m
    ensures RowMajor(MovesBefore(g, color, m))
    ensures |MovesBefore(g, color, m)| <= if m < 0 then 0 else m * g.columns
    decreases m
  {
    if m > 0 {
      MovesBeforeOrder(g, color, m - 1);
      RowMovesOrder(g, color, m - 1, g.columns);
      MovesStep(MovesBefore(g, color, m - 1), RowMoves(g, color, m - 1, g.columns), m, g.columns);
    }
  }

  /** The points of the rows above row m - 1, followed by row-major points of row m - 1. */
  lemma MovesStep(prefix: seq<Point>, row: seq<Point>, m: int, columns: int)
    requires 0 < m && 0 <= columns
    requires (forall p :: p in prefix ==> p.y < m - 1) && RowMajor(prefix) && |prefix| <= (m - 1) * columns
    requires (forall p :: p in row ==> p.y == m - 1 && p.x < columns) && RowMajor(row) && |row| <= columns
    ensures (forall p :: p in prefix + row ==> p.y < m) && RowMajor(prefix + row) && |prefix + row| <= m * columns
  {
    RowMajorAppend(prefix, row);
    Grids.MulStep(m - 1, columns);
  }

  /**
   * updateValidMoves: a point is in the list exactly when it is a legal move;
   * the list is row-major, so free of duplicates, and has at most one entry per tile.
   */
  lemma ValidMovesFacts(g: Grid, color: Color)
    requires Shaped(g)
    ensures forall p :: p in ValidMoves(g, color) <==> ValidMove(g, p, color)
    ensures forall p :: p in ValidMoves(g, color) ==> ValidPosition(g, p)
    ensures RowMajor(ValidMoves(g, color)) && NoDup(ValidMoves(g, color))
    ensures |ValidMoves(g, color)| <= g.rows * g.columns
  {
    MovesBeforeMembers(g, color, g.rows);
    MovesBeforeOrder(g, color, g.rows);
    RowMajorNoDup(ValidMoves(g, color));
  }

  // ---------------------------------------------------------------- turn and status

  /**
   * updateTurn: the turn changes hands exactly when the waiting side has a
   * move; the counter becomes the number of disks minus three; nothing else changes.
   */
  lemma UpdateTurnFacts(s: BoardState)
    ensures var t := UpdateTurn(s);
      t == s.(playerTurn := t.playerTurn, turn := t.turn) &&
      t.turn == s.black.score + s.white.score - 3 &&
      (t.playerTurn != s.playerTurn <==>
        (s.playerTurn == WHITE && s.black.validMoves != []) || (s.playerTurn == BLACK && s.white.validMoves != [])) &&
      (t.playerTurn != s.playerTurn ==> OppositeColor(s.playerTurn) == Some(t.playerTurn))
  {
  }

  /**
   * updateGameStatus: the game ends exactly when neither list has a move, and
   * then the winner is the higher scorer (NONE on a tie); it never clears
   * gameEnded, changes nothing else, and a second call changes nothing.
   */
  lemma UpdateGameStatusFacts(s: BoardState)
    ensures var t := UpdateGameStatus(s);
      t == s.(gameEnded := t.gameEnded, winner := t.winner) &&
      (t.gameEnded <==> s.gameEnded || (s.black.validMoves == [] && s.white.validMoves == [])) &&
      (s.black.validMoves == [] && s.white.validMoves == [] ==>
        (t.winner == Some(BLACK) <==> s.black.score > s.white.score) &&
        (t.winner == Some(WHITE) <==> s.white.score > s.black.score) &&
        (t.winner == Some(NONE) <==> s.black.score == s.white.score)) &&
      (s.black.validMoves != [] || s.white.validMoves != [] ==> t == s) &&
      UpdateGameStatus(t) == t
  {
  }

  /**
   * What a search may rely on about a board: the grid is well formed, the
   * side to move is BLACK or WHITE, the stored moves are on the board, and
   * unless the game has ended the side to move has a move.
   */
  predicate Playable(s: BoardState) {
    Shaped(s.grid) && s.playerTurn != NONE &&
    (forall p :: p in s.black.validMoves ==> ValidPosition(s.grid, p)) &&
    (forall p :: p in s.white.validMoves ==> ValidPosition(s.grid, p)) &&
    (!s.gameEnded ==> CurrentPlayer(s).validMoves != [])
  }

  /** updateBoard establishes Playable from any well-formed board whose turn is BLACK or WHITE. */
  lemma UpdateBoardPlayable(s: BoardState)
    requires Shaped(s.grid) && s.playerTurn != NONE
    ensures Playable(UpdateBoard(s))
    ensures UpdateBoard(s).black.validMoves == ValidMoves(s.grid, s.black.color)
    ensures UpdateBoard(s).white.validMoves == ValidMoves(s.grid, s.white.color)
  {
    ValidMovesFacts(s.grid, s.black.color);
    ValidMovesFacts(s.grid, s.white.color);
  }

  /** placeDisk keeps Playable: the search may walk from a successor to its successors. */
  lemma PlaceDiskPlayable(s: BoardState, pos: Point, color: Color)
    requires Shaped(s.grid) && ValidPosition(s.grid, pos) && s.playerTurn != NONE
    ensures Playable(PlaceDisk(s, pos, color))
  {
    var f := FlipCaptures(FlipDisk(s, pos, color), pos, color).board;
    FlipCapturesOutcome(FlipDisk(s, pos, color), pos, color);
    UpdateBoardPlayable(f);
  }

  // ---------------------------------------------------------------- a new board

  /**
   * initializeBoard: BLACK on the two centre tiles of the main diagonal, WHITE
   * on the other two, every other tile empty.
   */
  lemma InitialGridTiles(rows: int, columns: int)
    requires Initializable(rows, columns)
    ensures var g, d, u := InitialGrid(rows, columns), rows / 2 - 1, rows / 2;
      DiskColor(g, Point(d, d)) == BLACK && DiskColor(g, Point(u, u)) == BLACK &&
      DiskColor(g, Point(u, d)) == WHITE && DiskColor(g, Point(d, u)) == WHITE &&
      forall p :: ValidPosition(g, p) && p !in {Point(d, d), Point(u, u), Point(u, d), Point(d, u)} ==>
        DiskColor(g, p) == NONE
  {
  }

  /** The Board constructor: BLACK to move, game running, no winner, turn 1, scores 2 and 2, Playable lists. */
  lemma InitialStateFacts(rows: int, columns: int)
    requires Initializable(rows, columns)
    ensures var s := InitialState(rows, columns);
      s.playerTurn == BLACK && !s.gameEnded && s.winner == None && s.turn == 1 &&
      s.black.score == 2 && s.white.score == 2 &&
      s.black.validMoves == ValidMoves(s.grid, BLACK) && s.white.validMoves == ValidMoves(s.grid, WHITE)
  {
  }

  /** On a new 8 x 8 board WHITE owns no corner, X-square or C-square. */
  lemma InitialCountersWhite()
    ensures var g := InitialGrid(8, 8);
      CornersOwned(g, WHITE) == 0 && XSquaresOwned(g, WHITE) == 0 && BadXSquaresOwned(g, WHITE) == 0 &&
      CSquaresOwned(g, WHITE) == 0 && BadCSquaresOwned(g, WHITE) == 0
  {
    InitialGridTiles(8, 8);
  }
}
