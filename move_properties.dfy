/**
 * Command.execute followed by Command.undo: every tile and both scores are
 * restored, and the move lists and turn counter are those updateBoard
 * computes for the restored board. gameEnded and winner are not reset.
 */
module MoveProperties {
  import opened Colors
  import opened Geometry
  import opened Grids
  import opened Rules
  import opened FlipProperties

  /** The loop of undo is one flip of its list, when the listed tiles hold `from` and are distinct. */
  lemma {:induction false} FlipAllOutcome(s: BoardState, pts: seq<Point>, to: Color, from: Color)
    requires Shaped(s.grid) && to != from && NoDup(pts)
    requires forall q :: q in pts ==> ValidPosition(s.grid, q) && DiskColor(s.grid, q) == from
    ensures FlipOutcome(s, FlipAll(s, pts, to), pts, to, from)
    decreases |pts|
  {
    if pts == [] {
      NoFlipOutcome(s, to, from);
    } else {
      var t := FlipDisk(s, pts[0], to);
      FlipDiskOutcome(s, pts[0], to, from);
      forall q | q in pts[1..]
        ensures ValidPosition(t.grid, q) && DiskColor(t.grid, q) == from
      {
        assert q in pts && q != pts[0];
      }
      FlipAllOutcome(t, pts[1..], to, from);
      FlipOutcomeCompose(s, t, FlipAll(t, pts[1..], to), [pts[0]], pts[1..], to, from);
      assert [pts[0]] + pts[1..] == pts;
    }
  }

  /** The move lists and the turn counter agree with the tiles and scores (what updateBoard leaves). */
  predicate Synced(s: BoardState)
    requires Shaped(s.grid)
  {
    s.black.validMoves == ValidMoves(s.grid, s.black.color) &&
    s.white.validMoves == ValidMoves(s.grid, s.white.color) &&
    s.turn == s.black.score + s.white.score - 3
  }

  /** The board after execute and the board after the undo that follows it, tile for tile. */
  lemma UndoRestoresGrid(s: BoardState, pos: Point, color: Color, opponent: Color,
                         t: BoardState, r1: BoardState, r2: BoardState, pts: seq<Point>)
    requires Shaped(s.grid) && ValidPosition(s.grid, pos) && DiskColor(s.grid, pos) == NONE
    requires color != NONE && opponent != NONE && color != opponent
    requires pos !in pts && Recolored(s.grid, t.grid, [pos] + pts, color)
    requires forall q :: q in pts ==> ValidPosition(s.grid, q) && DiskColor(s.grid, q) == opponent
    requires r1.grid == SetTile(t.grid, pos, NONE) && Recolored(r1.grid, r2.grid, pts, opponent)
    ensures r2.grid == s.grid
  {
    forall q | ValidPosition(s.grid, q)
      ensures DiskColor(r2.grid, q) == DiskColor(s.grid, q)
    {
      if q !in pts && q != pos {
        assert DiskColor(r1.grid, q) == DiskColor(t.grid, q);
      }
    }
    GridExtensionality(r2.grid, s.grid);
  }

  /**
   * execute on an empty tile, before updateBoard: the mover gains the placed
   * disk and the captures, the opponent loses the captures; captures are
   * listed once each; nothing but the tiles and the scores changes.
   */
  lemma ExecuteScores(s: BoardState, pos: Point, color: Color)
    requires Shaped(s.grid) && ValidPosition(s.grid, pos) && color != NONE && DiskColor(s.grid, pos) == NONE
    ensures OppositeColor(color).Some?
    ensures var f := FlipCaptures(FlipDisk(s, pos, color), pos, color);
      var n, opponent := |f.points|, OppositeColor(color).value;
      NoDup(f.points) &&
      f.board == s.(grid := f.board.grid,
                    black := s.black.(score := s.black.score + Ind(color == BLACK) + ScoreShift(BLACK, color, opponent, n)),
                    white := s.white.(score := s.white.score + Ind(color == WHITE) + ScoreShift(WHITE, color, opponent, n)))
  {
    var s1 := FlipDisk(s, pos, color);
    FlipCapturesOutcome(s1, pos, color);
  }

  /**
   * The flips of undo after removeDisk: the destination is empty again, the
   * listed tiles go to `opponent`, and the scores move back.
   */
  lemma UndoScores(t: BoardState, pos: Point, pts: seq<Point>, color: Color, opponent: Color)
    requires Shaped(t.grid) && ValidPosition(t.grid, pos) && DiskColor(t.grid, pos) == color
    requires color != NONE && opponent != NONE && color != opponent
    requires pos !in pts && NoDup(pts)
    requires forall q :: q in pts ==> ValidPosition(t.grid, q) && DiskColor(t.grid, q) == color
    ensures var r1 := RemoveDisk(t, pos);
      var r := FlipAll(r1, pts, opponent);
      r1.grid == SetTile(t.grid, pos, NONE) && Recolored(r1.grid, r.grid, pts, opponent) &&
      r == t.(grid := r.grid,
              black := t.black.(score := t.black.score - Ind(color == BLACK) + ScoreShift(BLACK, opponent, color, |pts|)),
              white := t.white.(score := t.white.score - Ind(color == WHITE) + ScoreShift(WHITE, opponent, color, |pts|)))
  {
    var r1 := RemoveDisk(t, pos);
    forall q | q in pts
      ensures ValidPosition(r1.grid, q) && DiskColor(r1.grid, q) == color
    {
    }
    FlipAllOutcome(r1, pts, opponent, color);
  }

  /**
   * Undo's removeDisk and flips, applied to any board t that a move of `color`
   * to the empty tile pos produced from s with captures pts, give back s's
   * tiles and scores.
   */
  lemma UndoReverses(s: BoardState, t: BoardState, pos: Point, pts: seq<Point>, color: Color, opponent: Color)
    requires Shaped(s.grid) && ValidPosition(s.grid, pos) && DiskColor(s.grid, pos) == NONE
    requires color != NONE && opponent != NONE && color != opponent
    requires pos !in pts && NoDup(pts) && Recolored(s.grid, t.grid, [pos] + pts, color)
    requires forall q :: q in pts ==> ValidPosition(s.grid, q) && DiskColor(s.grid, q) == opponent
    requires t.black.score == s.black.score + Ind(color == BLACK) + ScoreShift(BLACK, color, opponent, |pts|)
    requires t.white.score == s.white.score + Ind(color == WHITE) + ScoreShift(WHITE, color, opponent, |pts|)
    ensures forall q :: q in pts ==> ValidPosition(t.grid, q)
    ensures var r := FlipAll(RemoveDisk(t, pos), pts, opponent);
      r == t.(grid := s.grid, black := t.black.(score := s.black.score), white := t.white.(score := s.white.score))
  {
    assert DiskColor(t.grid, pos) == color;
    forall q | q in pts
      ensures ValidPosition(t.grid, q) && DiskColor(t.grid, q) == color
    {
    }
    UndoScores(t, pos, pts, color, opponent);
    var r1 := RemoveDisk(t, pos);
    var r := FlipAll(r1, pts, opponent);
    UndoRestoresGrid(s, pos, color, opponent, t, r1, r, pts);
  }

  /** The tiles, the scores and the player colours after execute and then the flips of undo. */
  lemma UndoFlipsRestore(s: BoardState, pos: Point, color: Color)
    requires Shaped(s.grid) && ValidPosition(s.grid, pos) && color != NONE && DiskColor(s.grid, pos) == NONE
    ensures var t := PlaceDisk(s, pos, color);
      var captured := Captures(s, pos, color);
      Shaped(t.grid) && t.grid.rows == s.grid.rows && t.grid.columns == s.grid.columns &&
      (forall q :: q in captured ==> ValidPosition(t.grid, q)) &&
      var r := FlipAll(RemoveDisk(t, pos), captured, OppositeColor(color).value);
      r == t.(grid := s.grid, black := t.black.(score := s.black.score), white := t.white.(score := s.white.score))
  {
    var opponent := OppositeColor(color).value;
    var f := FlipCaptures(FlipDisk(s, pos, color), pos, color);
    var t := UpdateBoard(f.board);
    assert t == PlaceDisk(s, pos, color);
    assert f.points == Captures(s, pos, color);
    UpdateBoardFrame(f.board);
    PlaceDiskOutcome(s, pos, color);
    ExecuteScores(s, pos, color);
    UndoReverses(s, t, pos, f.points, color, opponent);
  }

  /**
   * execute then undo of a move of `color` to an empty tile: the tiles and the
   * scores are restored; the lists and the turn counter are recomputed from
   * them, so a Synced board gets its own back; gameEnded is never cleared.
   */
  lemma ExecuteThenUndo(s: BoardState, pos: Point, color: Color)
    requires Shaped(s.grid) && ValidPosition(s.grid, pos) && color != NONE && DiskColor(s.grid, pos) == NONE
    ensures var t := PlaceDisk(s, pos, color);
      var captured := Captures(s, pos, color);
      Shaped(t.grid) && t.grid.rows == s.grid.rows && t.grid.columns == s.grid.columns &&
      (forall q :: q in captured ==> ValidPosition(t.grid, q)) &&
      var u := UndoMove(t, color, pos, captured);
      u.grid == s.grid && u.black.score == s.black.score && u.white.score == s.white.score &&
      u.black.validMoves == ValidMoves(s.grid, s.black.color) &&
      u.white.validMoves == ValidMoves(s.grid, s.white.color) &&
      u.turn == s.black.score + s.white.score - 3 &&
      (Synced(s) ==> u.black == s.black && u.white == s.white && u.turn == s.turn) &&
      (t.gameEnded ==> u.gameEnded)
  {
    UndoFlipsRestore(s, pos, color);
    ExecuteScores(s, pos, color);
    var t := PlaceDisk(s, pos, color);
    var r := FlipAll(RemoveDisk(t, pos), Captures(s, pos, color), OppositeColor(color).value);
    UpdateBoardFrame(r);
  }
}
