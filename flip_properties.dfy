/**
 * What the flip operations of Board.java do to a board: flipInDirection recolours
 * exactly the contiguous run of opponent disks next to the placed disk,
 * flipCaptures recolours the union of those runs, each flipped tile held an
 * opponent disk, no tile is listed twice, and each flip moves one disk from the
 * opponent's score to the mover's.
 */
module FlipProperties {
  import opened Wrappers
  import opened Colors
  import opened Geometry
  import opened Grids
  import opened Rules

  predicate NoDup<T(==)>(s: seq<T>) {
    forall i, j :: 0 <= i < j < |s| ==> s[i] != s[j]
  }

  /** h is g with every tile of pts recoloured to c, and nothing else changed. */
  ghost predicate Recolored(g: Grid, h: Grid, pts: seq<Point>, c: Color) {
    Shaped(g) && Shaped(h) && h.rows == g.rows && h.columns == g.columns &&
    forall q :: ValidPosition(g, q) ==> DiskColor(h, q) == (if q in pts then c else DiskColor(g, q))
  }

  /** The change of `who`'s score when n disks go from opponent to color. */
  function ScoreShift(who: Color, color: Color, opponent: Color, n: int): int {
    if who == color then n else if who == opponent then -n else 0
  }

  /**
   * t is s after the disks at pts, all of colour `opponent` in s and listed once
   * each, were flipped to `color`: the tiles, the two scores accordingly, and no
   * other field.
   */
  ghost predicate FlipOutcome(s: BoardState, t: BoardState, pts: seq<Point>, color: Color, opponent: Color) {
    Recolored(s.grid, t.grid, pts, color) &&
    (forall q :: q in pts ==> ValidPosition(s.grid, q) && DiskColor(s.grid, q) == opponent) &&
    NoDup(pts) &&
    t == s.(grid := t.grid,
            black := s.black.(score := s.black.score + ScoreShift(BLACK, color, opponent, |pts|)),
            white := s.white.(score := s.white.score + ScoreShift(WHITE, color, opponent, |pts|)))
  }

  lemma NoFlipOutcome(s: BoardState, color: Color, opponent: Color)
    requires Shaped(s.grid)
    ensures FlipOutcome(s, s, [], color, opponent)
  {
    assert s.black.(score := s.black.score) == s.black;
    assert s.white.(score := s.white.score) == s.white;
  }

  lemma FlipDiskOutcome(s: BoardState, q: Point, color: Color, opponent: Color)
    requires Shaped(s.grid) && ValidPosition(s.grid, q) && DiskColor(s.grid, q) == opponent && color != opponent
    ensures FlipOutcome(s, FlipDisk(s, q, color), [q], color, opponent)
  {
  }

  /** Two flips in a row, the second on the board the first produced, are one flip of both lists. */
  lemma FlipOutcomeCompose(s: BoardState, t: BoardState, u: BoardState, p1: seq<Point>, p2: seq<Point>,
                           color: Color, opponent: Color)
    requires color != opponent
    requires FlipOutcome(s, t, p1, color, opponent) && FlipOutcome(t, u, p2, color, opponent)
    ensures FlipOutcome(s, u, p1 + p2, color, opponent)
  {
    forall q | q in p2
      ensures q !in p1 && ValidPosition(s.grid, q) && DiskColor(s.grid, q) == opponent
    {
      assert ValidPosition(t.grid, q) && DiskColor(t.grid, q) == opponent;
    }
    forall i, j | 0 <= i < j < |p1 + p2|
      ensures (p1 + p2)[i] != (p1 + p2)[j]
    {
      if i < |p1| && j >= |p1| {
        assert (p1 + p2)[j] in p2;
      }
    }
  }

  /** The point k steps from p in direction (dx, dy). */
  function RayPoint(p: Point, dx: int, dy: int, k: int): Point {
    Point(p.x + k * dx, p.y + k * dy)
  }

  lemma RayPointStep(p: Point, dx: int, dy: int, k: int)
    ensures RayPoint(Step(p, dx, dy), dx, dy, k) == RayPoint(p, dx, dy, k + 1)
    ensures Step(RayPoint(p, dx, dy, k), dx, dy) == RayPoint(p, dx, dy, k + 1)
  {
    assert (k + 1) * dx == k * dx + dx;
    assert (k + 1) * dy == k * dy + dy;
  }

  /** A ray in a unit direction never comes back to its start. */
  lemma RayPointMoves(p: Point, dx: int, dy: int, k: int)
    requires IsDirection(dx, dy) && k >= 1
    ensures RayPoint(p, dx, dy, k) != p
  {
    if dx != 0 {
      assert k * dx != 0;
    } else {
      assert k * dy != 0;
    }
  }

  /** The run flipInDirection's loop visits: pts are the first |pts| tiles of the ray from pos. */
  ghost predicate OnRay(pos: Point, dx: int, dy: int, pts: seq<Point>) {
    forall k :: 0 <= k < |pts| ==> pts[k] == RayPoint(pos, dx, dy, k)
  }

  /** The walk of flipInDirection flips opponent disks only, each once, and scores them. */
  lemma {:induction false} FlipRunFlips(s: BoardState, pos: Point, color: Color, opponent: Color, dx: int, dy: int)
    requires Shaped(s.grid) && IsDirection(dx, dy) && color != opponent
    ensures var r := FlipRun(s, pos, color, opponent, dx, dy); FlipOutcome(s, r.board, r.points, color, opponent)
    decreases Span(s.grid.rows, s.grid.columns, pos, dx, dy)
  {
    if ValidPosition(s.grid, pos) && DiskColor(s.grid, pos) == opponent {
      var s1 := FlipDisk(s, pos, color);
      var rest := FlipRun(s1, Step(pos, dx, dy), color, opponent, dx, dy);
      FlipDiskOutcome(s, pos, color, opponent);
      FlipRunFlips(s1, Step(pos, dx, dy), color, opponent, dx, dy);
      FlipOutcomeCompose(s, s1, rest.board, [pos], rest.points, color, opponent);
    } else {
      NoFlipOutcome(s, color, opponent);
    }
  }

  /** The walk visits the tiles of the ray from pos, in order. */
  lemma {:induction false} FlipRunOnRay(s: BoardState, pos: Point, color: Color, opponent: Color, dx: int, dy: int)
    requires Shaped(s.grid) && IsDirection(dx, dy)
    ensures OnRay(pos, dx, dy, FlipRun(s, pos, color, opponent, dx, dy).points)
    decreases Span(s.grid.rows, s.grid.columns, pos, dx, dy)
  {
    var r := FlipRun(s, pos, color, opponent, dx, dy);
    if ValidPosition(s.grid, pos) && DiskColor(s.grid, pos) == opponent {
      var s1 := FlipDisk(s, pos, color);
      var rest := FlipRun(s1, Step(pos, dx, dy), color, opponent, dx, dy);
      FlipRunOnRay(s1, Step(pos, dx, dy), color, opponent, dx, dy);
      assert r.points == [pos] + rest.points;
      forall k | 0 <= k < |r.points|
        ensures r.points[k] == RayPoint(pos, dx, dy, k)
      {
        if k > 0 {
          RayPointStep(pos, dx, dy, k - 1);
        } else {
          assert RayPoint(pos, dx, dy, 0) == pos;
        }
      }
    }
  }

  /** The tile just past the run the walk flips from pos is off the board or holds no opponent disk. */
  predicate StopsAfterRun(s: BoardState, pos: Point, color: Color, opponent: Color, dx: int, dy: int)
    requires Shaped(s.grid) && IsDirection(dx, dy)
  {
    var after := RayPoint(pos, dx, dy, |FlipRun(s, pos, color, opponent, dx, dy).points|);
    !(ValidPosition(s.grid, after) && DiskColor(s.grid, after) == opponent)
  }

  /** The walk stops at the first tile that is off the board or not an opponent disk: the run is maximal. */
  lemma {:induction false} FlipRunStops(s: BoardState, pos: Point, color: Color, opponent: Color, dx: int, dy: int)
    requires Shaped(s.grid) && IsDirection(dx, dy) && color != opponent
    ensures StopsAfterRun(s, pos, color, opponent, dx, dy)
    decreases Span(s.grid.rows, s.grid.columns, pos, dx, dy)
  {
    if ValidPosition(s.grid, pos) && DiskColor(s.grid, pos) == opponent {
      FlipRunStops(FlipDisk(s, pos, color), Step(pos, dx, dy), color, opponent, dx, dy);
      StopsAfterStep(s, pos, color, opponent, dx, dy);
    } else {
      assert RayPoint(pos, dx, dy, 0) == pos;
    }
  }

  /** A run that stops after the next tile, once the disk at pos is flipped, stops after pos too. */
  lemma StopsAfterStep(s: BoardState, pos: Point, color: Color, opponent: Color, dx: int, dy: int)
    requires Shaped(s.grid) && IsDirection(dx, dy) && color != opponent
    requires ValidPosition(s.grid, pos) && DiskColor(s.grid, pos) == opponent
    requires StopsAfterRun(FlipDisk(s, pos, color), Step(pos, dx, dy), color, opponent, dx, dy)
    ensures StopsAfterRun(s, pos, color, opponent, dx, dy)
  {
    var s1 := FlipDisk(s, pos, color);
    var next := Step(pos, dx, dy);
    var n := |FlipRun(s1, next, color, opponent, dx, dy).points|;
    FlipRunLength(s, pos, color, opponent, dx, dy);
    RayPointStep(pos, dx, dy, n);
    RayPointMoves(pos, dx, dy, n + 1);
    FlipDiskElsewhere(s, pos, color, RayPoint(pos, dx, dy, n + 1));
  }

  /** One step of the walk: the run from pos is one longer than the run from the next tile. */
  lemma FlipRunLength(s: BoardState, pos: Point, color: Color, opponent: Color, dx: int, dy: int)
    requires Shaped(s.grid) && IsDirection(dx, dy)
    requires ValidPosition(s.grid, pos) && DiskColor(s.grid, pos) == opponent
    ensures |FlipRun(s, pos, color, opponent, dx, dy).points| ==
            |FlipRun(FlipDisk(s, pos, color), Step(pos, dx, dy), color, opponent, dx, dy).points| + 1
  {
  }

  /** flipDisk leaves every other tile, and the board's shape, as it was. */
  lemma FlipDiskElsewhere(s: BoardState, pos: Point, color: Color, q: Point)
    requires Shaped(s.grid) && ValidPosition(s.grid, pos) && q != pos
    ensures ValidPosition(FlipDisk(s, pos, color).grid, q) == ValidPosition(s.grid, q)
    ensures ValidPosition(s.grid, q) ==> DiskColor(FlipDisk(s, pos, color).grid, q) == DiskColor(s.grid, q)
  {
  }

  /**
   * flipInDirection: when the direction is not valid nothing changes; when it is,
   * the opponent run next to position is flipped, and the tile after that run
   * holds a disk of the mover's colour (the bracketing disk).
   */
  lemma FlipInDirectionOutcome(s: BoardState, position: Point, color: Color, dx: int, dy: int)
    requires Shaped(s.grid) && IsDirection(dx, dy)
    ensures var r := FlipInDirection(s, position, color, dx, dy);
      (!ValidInDirection(s.grid, position, color, dx, dy) ==> r == Flipped(s, [])) &&
      (ValidInDirection(s.grid, position, color, dx, dy) ==>
         OppositeColor(color).Some? &&
         FlipOutcome(s, r.board, r.points, color, OppositeColor(color).value) &&
         |r.points| > 0 && OnRay(Step(position, dx, dy), dx, dy, r.points) &&
         var after := RayPoint(Step(position, dx, dy), dx, dy, |r.points|);
         ValidPosition(s.grid, after) && DiskColor(s.grid, after) == color)
  {
    if ValidInDirection(s.grid, position, color, dx, dy) {
      var opponent := OppositeColor(color).value;
      FlipRunFlips(s, Step(position, dx, dy), color, opponent, dx, dy);
      BracketedRun(s, Step(position, dx, dy), color, opponent, dx, dy);
    }
  }

  /**
   * A run that starts on an opponent disk and whose ray reaches `color` flips
   * at least that disk, along the ray, and stops on a disk of `color`.
   */
  lemma BracketedRun(s: BoardState, next: Point, color: Color, opponent: Color, dx: int, dy: int)
    requires Shaped(s.grid) && IsDirection(dx, dy) && color != NONE && opponent != NONE && color != opponent
    requires ValidPosition(s.grid, next) && DiskColor(s.grid, next) == opponent
    requires ReachesColor(s.grid, Step(next, dx, dy), color, dx, dy)
    ensures var r := FlipRun(s, next, color, opponent, dx, dy);
      |r.points| > 0 && OnRay(next, dx, dy, r.points) &&
      var after := RayPoint(next, dx, dy, |r.points|);
      ValidPosition(s.grid, after) && DiskColor(s.grid, after) == color
  {
    var r := FlipRun(s, next, color, opponent, dx, dy);
    FlipRunFlips(s, next, color, opponent, dx, dy);
    FlipRunOnRay(s, next, color, opponent, dx, dy);
    FlipRunStops(s, next, color, opponent, dx, dy);
    assert |r.points| > 0 by {
      assert RayPoint(next, dx, dy, 0) == next;
    }
    var n := |r.points| - 1;
    forall k | 0 <= k < n
      ensures ValidPosition(s.grid, RayPoint(Step(next, dx, dy), dx, dy, k))
      ensures DiskColor(s.grid, RayPoint(Step(next, dx, dy), dx, dy, k)) == opponent
    {
      RayPointStep(next, dx, dy, k);
      assert r.points[k + 1] in r.points;
    }
    RayPointStep(next, dx, dy, n);
    ReachesAfterRun(s.grid, Step(next, dx, dy), color, opponent, dx, dy, n);
  }

  /**
   * If the ray from pos reaches `color` and its first n tiles are opponent disks
   * followed by a tile that is not, then that tile holds `color`.
   */
  lemma {:induction false} ReachesAfterRun(g: Grid, pos: Point, color: Color, opponent: Color, dx: int, dy: int, n: nat)
    requires Shaped(g) && IsDirection(dx, dy) && color != NONE && opponent != NONE && color != opponent
    requires ReachesColor(g, pos, color, dx, dy)
    requires forall k :: 0 <= k < n ==> ValidPosition(g, RayPoint(pos, dx, dy, k)) && DiskColor(g, RayPoint(pos, dx, dy, k)) == opponent
    requires !(ValidPosition(g, RayPoint(pos, dx, dy, n)) && DiskColor(g, RayPoint(pos, dx, dy, n)) == opponent)
    ensures ValidPosition(g, RayPoint(pos, dx, dy, n)) && DiskColor(g, RayPoint(pos, dx, dy, n)) == color
    decreases n
  {
    assert RayPoint(pos, dx, dy, 0) == pos;
    if n > 0 {
      var next := Step(pos, dx, dy);
      forall k | 0 <= k < n - 1
        ensures ValidPosition(g, RayPoint(next, dx, dy, k)) && DiskColor(g, RayPoint(next, dx, dy, k)) == opponent
      {
        RayPointStep(pos, dx, dy, k);
      }
      RayPointStep(pos, dx, dy, n - 1);
      ReachesAfterRun(g, next, color, opponent, dx, dy, n - 1);
    }
  }

  /**
   * flipInDirection over a list of directions, after flips `done` that took s0
   * to s: one flip of all the collected points, taking s0 to the result.
   */
  lemma {:induction false} FlipDirectionsOutcome(s0: BoardState, s: BoardState, pos: Point, color: Color,
                                                 done: seq<Point>, dirs: seq<(int, int)>)
    requires Shaped(s.grid) && AllDirections(dirs) && color != NONE
    requires OppositeColor(color).Some? && FlipOutcome(s0, s, done, color, OppositeColor(color).value)
    ensures var r := FlipDirections(s, pos, color, done, dirs);
      FlipOutcome(s0, r.board, r.points, color, OppositeColor(color).value)
    decreases |dirs|
  {
    var opponent := OppositeColor(color).value;
    if dirs != [] {
      AllDirectionsTail(dirs);
      var first := FlipInDirection(s, pos, color, dirs[0].0, dirs[0].1);
      FlipInDirectionOutcome(s, pos, color, dirs[0].0, dirs[0].1);
      if first == Flipped(s, []) {
        NoFlipOutcome(s, color, opponent);
      }
      FlipOutcomeCompose(s0, s, first.board, done, first.points, color, opponent);
      FlipDirectionsOutcome(s0, first.board, pos, color, done + first.points, dirs[1..]);
    }
  }

  /** A NONE disk brackets nothing, so it flips nothing. */
  lemma {:induction false} FlipDirectionsNone(s: BoardState, pos: Point, done: seq<Point>, dirs: seq<(int, int)>)
    requires Shaped(s.grid) && AllDirections(dirs)
    ensures FlipDirections(s, pos, NONE, done, dirs) == Flipped(s, done)
    decreases |dirs|
  {
    if dirs != [] {
      AllDirectionsTail(dirs);
      assert done + [] == done;
      FlipDirectionsNone(s, pos, done, dirs[1..]);
    }
  }

  /**
   * flipCaptures: off the board, or for NONE, nothing changes; otherwise the
   * returned tiles were opponent disks, are listed once each, are now the
   * mover's, and no other tile changed.
   */
  lemma FlipCapturesOutcome(s: BoardState, pos: Point, color: Color)
    requires Shaped(s.grid)
    ensures var r := FlipCaptures(s, pos, color);
      ((!ValidPosition(s.grid, pos) || color == NONE) ==> r == Flipped(s, [])) &&
      (color != NONE ==> OppositeColor(color).Some? && FlipOutcome(s, r.board, r.points, color, OppositeColor(color).value))
  {
    DirectionsValid();
    if !ValidPosition(s.grid, pos) {
      if color != NONE {
        NoFlipOutcome(s, color, OppositeColor(color).value);
      }
    } else if color == NONE {
      FlipDirectionsNone(s, pos, [], Directions);
    } else {
      NoFlipOutcome(s, color, OppositeColor(color).value);
      FlipDirectionsOutcome(s, s, pos, color, [], Directions);
    }
  }

  /** updateBoard changes only the move lists, the turn and the game status. */
  lemma UpdateBoardFrame(s: BoardState)
    requires Shaped(s.grid)
    ensures var t := UpdateBoard(s);
      t.grid == s.grid && t.black.score == s.black.score && t.white.score == s.white.score &&
      t.black.color == s.black.color && t.white.color == s.white.color &&
      t.black.isComputer == s.black.isComputer && t.white.isComputer == s.white.isComputer
  {
  }

  /**
   * placeDisk of `color` at pos: pos and the captured tiles become `color` and
   * nothing else changes; the placed tile is not among the captures.
   */
  lemma PlaceDiskOutcome(s: BoardState, pos: Point, color: Color)
    requires Shaped(s.grid) && ValidPosition(s.grid, pos) && color != NONE
    ensures pos !in Captures(s, pos, color)
    ensures Recolored(s.grid, PlaceDisk(s, pos, color).grid, [pos] + Captures(s, pos, color), color)
    ensures OppositeColor(color).Some?
    ensures forall q :: q in Captures(s, pos, color) ==>
              ValidPosition(s.grid, q) && DiskColor(s.grid, q) == OppositeColor(color).value
  {
    var s1 := FlipDisk(s, pos, color);
    var f := FlipCaptures(s1, pos, color);
    FlipCapturesOutcome(s1, pos, color);
    UpdateBoardFrame(f.board);
    var opponent := OppositeColor(color).value;
    PlacedThenFlipped(s.grid, s1, f.board, pos, f.points, color, opponent);
    assert Captures(s, pos, color) == f.points;
    assert PlaceDisk(s, pos, color).grid == f.board.grid;
  }

  /**
   * The list Command.execute keeps: on-board points only, and none at all for
   * a NONE disk, which has no opponent to capture.
   */
  lemma CapturesOnBoard(s: BoardState, pos: Point, color: Color)
    requires Shaped(s.grid) && ValidPosition(s.grid, pos)
    ensures forall q :: q in Captures(s, pos, color) ==> ValidPosition(s.grid, q)
    ensures color == NONE ==> Captures(s, pos, color) == []
  {
    if color == NONE {
      FlipCapturesOutcome(FlipDisk(s, pos, color), pos, color);
    } else {
      PlaceDiskOutcome(s, pos, color);
    }
  }

  /** A disk placed at pos, then a flip: pos was not flipped, and pos and the flipped tiles are the mover's. */
  lemma PlacedThenFlipped(g: Grid, s1: BoardState, t: BoardState, pos: Point, pts: seq<Point>,
                          color: Color, opponent: Color)
    requires Shaped(g) && ValidPosition(g, pos) && s1.grid == SetTile(g, pos, color) && color != opponent
    requires FlipOutcome(s1, t, pts, color, opponent)
    ensures pos !in pts
    ensures Recolored(g, t.grid, [pos] + pts, color)
    ensures forall q :: q in pts ==> ValidPosition(g, q) && DiskColor(g, q) == opponent
  {
    assert DiskColor(s1.grid, pos) == color;
    forall q | ValidPosition(g, q)
      ensures DiskColor(t.grid, q) == (if q in [pos] + pts then color else DiskColor(g, q))
    {
      if q != pos {
        assert DiskColor(s1.grid, q) == DiskColor(g, q);
      }
    }
    forall q | q in pts
      ensures ValidPosition(g, q) && DiskColor(g, q) == opponent
    {
      assert DiskColor(s1.grid, q) == DiskColor(g, q);
    }
  }

  // ---------------------------------------------------------------- scores equal disk counts

  /** The invariant flipDisk and removeDisk keep: each score is its colour's number of tiles. */
  predicate ScoresMatch(s: BoardState)
  {
    s.black.score == Count(s.grid, BLACK) && s.white.score == Count(s.grid, WHITE)
  }

  lemma FlipDiskKeepsScores(s: BoardState, pos: Point, color: Color)
    requires Shaped(s.grid) && ValidPosition(s.grid, pos) && ScoresMatch(s)
    ensures ScoresMatch(FlipDisk(s, pos, color))
  {
    CountSetTile(s.grid, pos, color, BLACK);
    CountSetTile(s.grid, pos, color, WHITE);
  }

  lemma RemoveDiskKeepsScores(s: BoardState, pos: Point)
    requires Shaped(s.grid) && ValidPosition(s.grid, pos) && ScoresMatch(s)
    ensures ScoresMatch(RemoveDisk(s, pos))
  {
    CountSetTile(s.grid, pos, NONE, BLACK);
    CountSetTile(s.grid, pos, NONE, WHITE);
  }

  lemma {:induction false} FlipRunKeepsScores(s: BoardState, pos: Point, color: Color, opponent: Color, dx: int, dy: int)
    requires Shaped(s.grid) && IsDirection(dx, dy) && ScoresMatch(s)
    ensures ScoresMatch(FlipRun(s, pos, color, opponent, dx, dy).board)
    decreases Span(s.grid.rows, s.grid.columns, pos, dx, dy)
  {
    if ValidPosition(s.grid, pos) && DiskColor(s.grid, pos) == opponent {
      FlipDiskKeepsScores(s, pos, color);
      FlipRunKeepsScores(FlipDisk(s, pos, color), Step(pos, dx, dy), color, opponent, dx, dy);
    }
  }

  lemma {:induction false} FlipDirectionsKeepsScores(s: BoardState, pos: Point, color: Color,
                                                     done: seq<Point>, dirs: seq<(int, int)>)
    requires Shaped(s.grid) && AllDirections(dirs) && ScoresMatch(s)
    ensures ScoresMatch(FlipDirections(s, pos, color, done, dirs).board)
    decreases |dirs|
  {
    if dirs != [] {
      AllDirectionsTail(dirs);
      var d := dirs[0];
      if ValidInDirection(s.grid, pos, color, d.0, d.1) {
        FlipRunKeepsScores(s, Step(pos, d.0, d.1), color, OppositeColor(color).value, d.0, d.1);
      }
      var first := FlipInDirection(s, pos, color, d.0, d.1);
      FlipDirectionsKeepsScores(first.board, pos, color, done + first.points, dirs[1..]);
    }
  }

  /** placeDisk keeps every score equal to its colour's disk count. */
  lemma PlaceDiskKeepsScores(s: BoardState, pos: Point, color: Color)
    requires Shaped(s.grid) && ValidPosition(s.grid, pos) && ScoresMatch(s)
    ensures ScoresMatch(PlaceDisk(s, pos, color))
  {
    DirectionsValid();
    var s1 := FlipDisk(s, pos, color);
    FlipDiskKeepsScores(s, pos, color);
    FlipDirectionsKeepsScores(s1, pos, color, [], Directions);
  }
}
