/**
 * Which disks flipCaptures flips. The eight calls of flipInDirection in
 * Board.flipCaptures each run on the board the previous ones left, but rays
 * leaving one tile in different directions share no tile, so each direction
 * sees the board as it was before any of them flipped. The list flipCaptures
 * returns (and the one Command.execute keeps) is therefore the runs of the
 * eight directions, all read on the board before the move.
 */
module CaptureRuns {
  import opened Colors
  import opened Geometry
  import opened Grids
  import opened Rules
  import opened FlipProperties

  /** g and h have the same dimensions and agree on every tile of the ray from p. */
  ghost predicate SameOnRay(g: Grid, h: Grid, p: Point, dx: int, dy: int) {
    Shaped(g) && Shaped(h) && g.rows == h.rows && g.columns == h.columns &&
    forall k :: 0 <= k && ValidPosition(g, RayPoint(p, dx, dy, k)) ==>
      DiskColor(g, RayPoint(p, dx, dy, k)) == DiskColor(h, RayPoint(p, dx, dy, k))
  }

  /** g and h agree on the ray from pos in each direction of dirs (the start pos itself excluded). */
  ghost predicate AgreeOnRays(g: Grid, h: Grid, pos: Point, dirs: seq<(int, int)>) {
    Shaped(g) && Shaped(h) && g.rows == h.rows && g.columns == h.columns &&
    forall i :: 0 <= i < |dirs| ==> SameOnRay(g, h, Step(pos, dirs[i].0, dirs[i].1), dirs[i].0, dirs[i].1)
  }

  lemma SameOnRayStep(g: Grid, h: Grid, p: Point, dx: int, dy: int)
    requires SameOnRay(g, h, p, dx, dy)
    ensures SameOnRay(g, h, Step(p, dx, dy), dx, dy)
  {
    forall k | 0 <= k && ValidPosition(g, RayPoint(Step(p, dx, dy), dx, dy, k))
      ensures DiskColor(g, RayPoint(Step(p, dx, dy), dx, dy, k)) == DiskColor(h, RayPoint(Step(p, dx, dy), dx, dy, k))
    {
      RayPointStep(p, dx, dy, k);
    }
  }

  /** A multiple of one unit component equals a multiple of another only if the two are equal. */
  lemma ScaledUnit(a: int, b: int, d: int, e: int)
    requires 0 < a && 0 < b && -1 <= d <= 1 && -1 <= e <= 1 && a * d == b * e
    ensures d == e
  {
    if d == 0 {
      assert b * e == 0;
    } else if d == 1 {
      assert a == b * e;
    } else {
      assert -a == b * e;
    }
  }

  /** Rays leaving one tile in two different directions share no tile. */
  lemma RaysApart(p: Point, d: (int, int), e: (int, int), k: int, j: int)
    requires IsDirection(d.0, d.1) && IsDirection(e.0, e.1) && d != e && 0 <= k && 0 <= j
    ensures RayPoint(Step(p, d.0, d.1), d.0, d.1, k) != RayPoint(Step(p, e.0, e.1), e.0, e.1, j)
  {
    RayPointStep(p, d.0, d.1, k);
    RayPointStep(p, e.0, e.1, j);
    if RayPoint(p, d.0, d.1, k + 1) == RayPoint(p, e.0, e.1, j + 1) {
      ScaledUnit(k + 1, j + 1, d.0, e.0);
      ScaledUnit(k + 1, j + 1, d.1, e.1);
    }
  }

  /** The ray walk of validInDirection reads only the tiles of its ray. */
  lemma {:induction false} ReachesLocal(g: Grid, h: Grid, p: Point, color: Color, dx: int, dy: int)
    requires IsDirection(dx, dy) && SameOnRay(g, h, p, dx, dy)
    ensures ReachesColor(g, p, color, dx, dy) == ReachesColor(h, p, color, dx, dy)
    decreases Span(g.rows, g.columns, p, dx, dy)
  {
    assert RayPoint(p, dx, dy, 0) == p;
    if ValidPosition(g, p) && DiskColor(g, p) != color && DiskColor(g, p) != NONE {
      SameOnRayStep(g, h, p, dx, dy);
      ReachesLocal(g, h, Step(p, dx, dy), color, dx, dy);
    }
  }

  /** Placing the same disk at p on two boards that agree on the ray from p keeps them agreeing past p. */
  lemma SameOnRayAfterFlip(s: BoardState, t: BoardState, p: Point, color: Color, dx: int, dy: int)
    requires IsDirection(dx, dy) && SameOnRay(s.grid, t.grid, p, dx, dy) && ValidPosition(s.grid, p)
    ensures SameOnRay(FlipDisk(s, p, color).grid, FlipDisk(t, p, color).grid, Step(p, dx, dy), dx, dy)
  {
    var s1, t1 := FlipDisk(s, p, color), FlipDisk(t, p, color);
    var next := Step(p, dx, dy);
    forall k | 0 <= k && ValidPosition(s1.grid, RayPoint(next, dx, dy, k))
      ensures DiskColor(s1.grid, RayPoint(next, dx, dy, k)) == DiskColor(t1.grid, RayPoint(next, dx, dy, k))
    {
      RayPointStep(p, dx, dy, k);
      RayPointMoves(p, dx, dy, k + 1);
    }
  }

  /** The walk of flipInDirection lists the same points on two boards that agree on its ray. */
  lemma {:induction false} FlipRunLocal(s: BoardState, t: BoardState, p: Point, color: Color, opponent: Color,
                                        dx: int, dy: int)
    requires IsDirection(dx, dy) && SameOnRay(s.grid, t.grid, p, dx, dy)
    ensures FlipRun(s, p, color, opponent, dx, dy).points == FlipRun(t, p, color, opponent, dx, dy).points
    decreases Span(s.grid.rows, s.grid.columns, p, dx, dy)
  {
    assert RayPoint(p, dx, dy, 0) == p;
    if ValidPosition(s.grid, p) && DiskColor(s.grid, p) == opponent {
      SameOnRayAfterFlip(s, t, p, color, dx, dy);
      FlipRunLocal(FlipDisk(s, p, color), FlipDisk(t, p, color), Step(p, dx, dy), color, opponent, dx, dy);
    }
  }

  /** flipInDirection lists the same points on two boards that agree on the ray it examines. */
  lemma FlipInDirectionLocal(s: BoardState, t: BoardState, position: Point, color: Color, dx: int, dy: int)
    requires IsDirection(dx, dy) && SameOnRay(s.grid, t.grid, Step(position, dx, dy), dx, dy)
    ensures FlipInDirection(s, position, color, dx, dy).points == FlipInDirection(t, position, color, dx, dy).points
  {
    var next := Step(position, dx, dy);
    assert RayPoint(next, dx, dy, 0) == next;
    SameOnRayStep(s.grid, t.grid, next, dx, dy);
    ReachesLocal(s.grid, t.grid, Step(next, dx, dy), color, dx, dy);
    if ValidInDirection(s.grid, position, color, dx, dy) {
      FlipRunLocal(s, t, next, color, OppositeColor(color).value, dx, dy);
    }
  }

  /** flipInDirection in direction d leaves every tile of the ray from pos in another direction e as it was. */
  lemma OtherRayUntouched(g: Grid, t: BoardState, pos: Point, color: Color, d: (int, int), e: (int, int))
    requires IsDirection(d.0, d.1) && IsDirection(e.0, e.1) && d != e
    requires SameOnRay(g, t.grid, Step(pos, e.0, e.1), e.0, e.1)
    ensures SameOnRay(g, FlipInDirection(t, pos, color, d.0, d.1).board.grid, Step(pos, e.0, e.1), e.0, e.1)
  {
    var r := FlipInDirection(t, pos, color, d.0, d.1);
    FlipInDirectionOutcome(t, pos, color, d.0, d.1);
    if ValidInDirection(t.grid, pos, color, d.0, d.1) {
      var start := Step(pos, e.0, e.1);
      forall k | 0 <= k && ValidPosition(g, RayPoint(start, e.0, e.1, k))
        ensures DiskColor(g, RayPoint(start, e.0, e.1, k)) == DiskColor(r.board.grid, RayPoint(start, e.0, e.1, k))
      {
        var q := RayPoint(start, e.0, e.1, k);
        if q in r.points {
          var j :| 0 <= j < |r.points| && r.points[j] == q;
          RaysApart(pos, d, e, j, k);
        }
      }
    }
  }

  /** The runs flipInDirection finds in each direction of dirs, in order, each read on the same board s. */
  function RunsOn(s: BoardState, pos: Point, color: Color, dirs: seq<(int, int)>): seq<Point>
    requires Shaped(s.grid) && AllDirections(dirs)
    decreases |dirs|, s  // `s` only keeps a literal list of directions from unfolding all at once
  {
    if dirs == [] then []
    else
      AllDirectionsTail(dirs);
      FlipInDirection(s, pos, color, dirs[0].0, dirs[0].1).points + RunsOn(s, pos, color, dirs[1..])
  }

  /** Each run of RunsOn depends only on the tiles of its ray. */
  lemma {:induction false} RunsOnLocal(s: BoardState, t: BoardState, pos: Point, color: Color, dirs: seq<(int, int)>)
    requires AllDirections(dirs) && AgreeOnRays(s.grid, t.grid, pos, dirs)
    ensures RunsOn(s, pos, color, dirs) == RunsOn(t, pos, color, dirs)
    decreases |dirs|
  {
    if dirs != [] {
      AllDirectionsTail(dirs);
      FlipInDirectionLocal(s, t, pos, color, dirs[0].0, dirs[0].1);
      assert AgreeOnRays(s.grid, t.grid, pos, dirs[1..]) by {
        forall i | 0 <= i < |dirs[1..]|
          ensures SameOnRay(s.grid, t.grid, Step(pos, dirs[1..][i].0, dirs[1..][i].1), dirs[1..][i].0, dirs[1..][i].1)
        {
          assert dirs[1..][i] == dirs[i + 1];
        }
      }
      RunsOnLocal(s, t, pos, color, dirs[1..]);
    }
  }

  /** One direction of flipCaptures, done on t, keeps t in agreement with s on the rays still to come. */
  lemma AgreeAfterFirst(s: BoardState, t: BoardState, pos: Point, color: Color, dirs: seq<(int, int)>)
    requires dirs != [] && AllDirections(dirs) && NoDup(dirs) && AgreeOnRays(s.grid, t.grid, pos, dirs)
    ensures AllDirections(dirs[1..]) && NoDup(dirs[1..])
    ensures AgreeOnRays(s.grid, FlipInDirection(t, pos, color, dirs[0].0, dirs[0].1).board.grid, pos, dirs[1..])
  {
    AllDirectionsTail(dirs);
    var first := FlipInDirection(t, pos, color, dirs[0].0, dirs[0].1);
    forall i | 0 <= i < |dirs[1..]|
      ensures SameOnRay(s.grid, first.board.grid, Step(pos, dirs[1..][i].0, dirs[1..][i].1), dirs[1..][i].0, dirs[1..][i].1)
    {
      assert dirs[1..][i] == dirs[i + 1] && dirs[0] != dirs[i + 1];
      OtherRayUntouched(s.grid, t, pos, color, dirs[0], dirs[i + 1]);
    }
    forall i, j | 0 <= i < j < |dirs[1..]|
      ensures dirs[1..][i] != dirs[1..][j]
    {
      assert dirs[1..][i] == dirs[i + 1] && dirs[1..][j] == dirs[j + 1];
    }
  }

  /**
   * flipInDirection over distinct directions, on a board t that agrees with s
   * on their rays: the points collected are done followed by the runs each
   * direction finds on s.
   */
  lemma {:induction false} FlipDirectionsRuns(s: BoardState, t: BoardState, pos: Point, color: Color,
                                              done: seq<Point>, dirs: seq<(int, int)>)
    requires AllDirections(dirs) && NoDup(dirs) && AgreeOnRays(s.grid, t.grid, pos, dirs)
    ensures FlipDirections(t, pos, color, done, dirs).points == done + RunsOn(s, pos, color, dirs)
    decreases |dirs|
  {
    if dirs == [] {
      assert done + [] == done;
    } else {
      var first := FlipInDirection(t, pos, color, dirs[0].0, dirs[0].1);
      FlipInDirectionLocal(s, t, pos, color, dirs[0].0, dirs[0].1);
      AgreeAfterFirst(s, t, pos, color, dirs);
      FlipDirectionsRuns(s, first.board, pos, color, done + first.points, dirs[1..]);
      assert (done + first.points) + RunsOn(s, pos, color, dirs[1..]) ==
             done + (first.points + RunsOn(s, pos, color, dirs[1..]));
    }
  }

  /**
   * flipCaptures at a tile of the board returns, in the order of its eight
   * calls, exactly the run each flipInDirection call would flip on the board
   * flipCaptures was given: no direction sees another's flips.
   */
  lemma FlipCapturesRuns(s: BoardState, pos: Point, color: Color)
    requires Shaped(s.grid) && ValidPosition(s.grid, pos)
    ensures FlipCaptures(s, pos, color).points == RunsOn(s, pos, color, Directions)
  {
    DirectionsComplete();
    FlipDirectionsRuns(s, s, pos, color, [], Directions);
  }

  /** Placing a disk at pos changes no tile of any ray leaving pos. */
  lemma PlacedOffRays(s: BoardState, pos: Point, color: Color, dirs: seq<(int, int)>)
    requires Shaped(s.grid) && ValidPosition(s.grid, pos) && AllDirections(dirs)
    ensures AgreeOnRays(FlipDisk(s, pos, color).grid, s.grid, pos, dirs)
  {
    var g := FlipDisk(s, pos, color).grid;
    forall i, k | 0 <= i < |dirs| && 0 <= k &&
                  ValidPosition(g, RayPoint(Step(pos, dirs[i].0, dirs[i].1), dirs[i].0, dirs[i].1, k))
      ensures DiskColor(g, RayPoint(Step(pos, dirs[i].0, dirs[i].1), dirs[i].0, dirs[i].1, k)) ==
              DiskColor(s.grid, RayPoint(Step(pos, dirs[i].0, dirs[i].1), dirs[i].0, dirs[i].1, k))
    {
      RayPointStep(pos, dirs[i].0, dirs[i].1, k);
      RayPointMoves(pos, dirs[i].0, dirs[i].1, k + 1);
    }
  }

  /**
   * The captures of placeDisk and Command.execute: the runs the mover
   * brackets in each direction on the board before the move, in the order of
   * Board.flipCaptures.
   */
  lemma CapturesBeforeMove(s: BoardState, pos: Point, color: Color)
    requires Shaped(s.grid) && ValidPosition(s.grid, pos)
    ensures Captures(s, pos, color) == RunsOn(s, pos, color, Directions)
  {
    var s1 := FlipDisk(s, pos, color);
    FlipCapturesRuns(s1, pos, color);
    DirectionsValid();
    PlacedOffRays(s, pos, color, Directions);
    RunsOnLocal(s1, s, pos, color, Directions);
  }

  /** A point is among the runs exactly when it is in the run of one of the directions. */
  lemma {:induction false} RunsOnMembers(s: BoardState, pos: Point, color: Color, dirs: seq<(int, int)>)
    requires Shaped(s.grid) && AllDirections(dirs)
    ensures forall q :: q in RunsOn(s, pos, color, dirs) <==>
      exists i :: 0 <= i < |dirs| && q in FlipInDirection(s, pos, color, dirs[i].0, dirs[i].1).points
    decreases |dirs|
  {
    if dirs != [] {
      AllDirectionsTail(dirs);
      RunsOnMembers(s, pos, color, dirs[1..]);
      forall q
        ensures q in RunsOn(s, pos, color, dirs) <==>
          exists i :: 0 <= i < |dirs| && q in FlipInDirection(s, pos, color, dirs[i].0, dirs[i].1).points
      {
        if q in RunsOn(s, pos, color, dirs[1..]) {
          var i :| 0 <= i < |dirs[1..]| && q in FlipInDirection(s, pos, color, dirs[1..][i].0, dirs[1..][i].1).points;
          assert dirs[1..][i] == dirs[i + 1];
        }
        if exists i :: 0 <= i < |dirs| && q in FlipInDirection(s, pos, color, dirs[i].0, dirs[i].1).points {
          var i :| 0 <= i < |dirs| && q in FlipInDirection(s, pos, color, dirs[i].0, dirs[i].1).points;
          if i > 0 {
            assert dirs[1..][i - 1] == dirs[i];
          }
        }
      }
    }
  }

  /**
   * Completeness of the captures of a move: a point is captured exactly when,
   * on the board before the move, it lies in the run that some direction
   * brackets (FlipInDirectionOutcome: a non-empty run exactly when that
   * direction is valid, opponent disks along the ray up to a disk of the
   * mover's colour).
   */
  lemma CapturesExactly(s: BoardState, pos: Point, color: Color)
    requires Shaped(s.grid) && ValidPosition(s.grid, pos)
    ensures forall q :: q in Captures(s, pos, color) <==>
      exists i :: 0 <= i < |Directions| && q in FlipInDirection(s, pos, color, Directions[i].0, Directions[i].1).points
  {
    DirectionsValid();
    CapturesBeforeMove(s, pos, color);
    RunsOnMembers(s, pos, color, Directions);
  }
}
