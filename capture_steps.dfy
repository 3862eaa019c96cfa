/**
 * flipInDirection and flipCaptures both collect flipped points one step at a
 * time; these lemmas carry "points so far + flips still to come = result"
 * from one step to the next.
 */
module CaptureSteps {
  import opened Colors
  import opened Geometry
  import Grids
  import opened Rules

  /** The flips collected so far put in front of those still to come. */
  function Join(done: seq<Point>, rest: Flipped): Flipped {
    Flipped(rest.board, done + rest.points)
  }

  /** Joining the points of two steps one after the other is joining their concatenation. */
  lemma JoinStep(goal: Flipped, done: seq<Point>, whole: Flipped, pts: seq<Point>, rest: Flipped)
    requires goal == Join(done, whole) && whole == Join(pts, rest)
    ensures goal == Join(done + pts, rest)
  {
    assert done + (pts + rest.points) == (done + pts) + rest.points;
  }

  /** Nothing collected yet: the whole result is still to come. */
  lemma JoinNothing(r: Flipped)
    ensures Join([], r) == r
  {
    assert [] + r.points == r.points;
  }

  /** Nothing left to come: the collected points are the result. */
  lemma JoinDone(goal: Flipped, done: seq<Point>, s: BoardState)
    requires goal == Join(done, Flipped(s, []))
    ensures goal == Flipped(s, done)
  {
    assert done + [] == done;
  }

  /**
   * The invariant of the flipInDirection loop: the points collected so far,
   * followed by what the walk from pos on s still flips, give the result.
   */
  predicate RunRemains(goal: Flipped, done: seq<Point>, s: BoardState, pos: Point, color: Color, opponent: Color,
                       dx: int, dy: int)
  {
    Grids.Shaped(s.grid) && IsDirection(dx, dy) &&
    goal == Join(done, FlipRun(s, pos, color, opponent, dx, dy))
  }

  /** Before the loop: nothing collected yet and the walk starts next to position. */
  lemma RunStarts(s: BoardState, position: Point, color: Color, dx: int, dy: int)
    requires Grids.Shaped(s.grid) && IsDirection(dx, dy)
    requires ValidInDirection(s.grid, position, color, dx, dy)
    ensures OppositeColor(color).Some?
    ensures RunRemains(FlipInDirection(s, position, color, dx, dy), [], s, Step(position, dx, dy),
                       color, OppositeColor(color).value, dx, dy)
  {
    JoinNothing(FlipInDirection(s, position, color, dx, dy));
  }

  /**
   * One pass of the flipInDirection loop: an opponent disk at pos is flipped
   * and recorded, and the walk continues at the next point.
   */
  lemma RunStep(goal: Flipped, done: seq<Point>, s: BoardState, pos: Point, color: Color, opponent: Color,
                dx: int, dy: int)
    requires RunRemains(goal, done, s, pos, color, opponent, dx, dy)
    requires Grids.ValidPosition(s.grid, pos) && Grids.DiskColor(s.grid, pos) == opponent
    ensures RunRemains(goal, done + [pos], FlipDisk(s, pos, color), Step(pos, dx, dy), color, opponent, dx, dy)
  {
    var rest := FlipRun(FlipDisk(s, pos, color), Step(pos, dx, dy), color, opponent, dx, dy);
    JoinStep(goal, done, FlipRun(s, pos, color, opponent, dx, dy), [pos], rest);
  }

  /** The walk of flipInDirection has stopped: nothing more is flipped. */
  lemma RunStops(goal: Flipped, done: seq<Point>, s: BoardState, pos: Point, color: Color, opponent: Color,
                 dx: int, dy: int)
    requires RunRemains(goal, done, s, pos, color, opponent, dx, dy)
    requires !(Grids.ValidPosition(s.grid, pos) && Grids.DiskColor(s.grid, pos) == opponent)
    ensures goal == Flipped(s, done)
  {
    JoinDone(goal, done, s);
  }

  /**
   * One of the flipInDirection calls of flipCaptures, for the first direction
   * still to do: the directions after it, starting from its board and its
   * points appended to those collected, still give the result.
   */
  lemma CapturesStep(goal: Flipped, done: seq<Point>, s: BoardState, t: BoardState, pts: seq<Point>,
                     pos: Point, color: Color, dirs: seq<(int, int)>)
    requires dirs != [] && AllDirections(dirs) && Grids.Shaped(s.grid)
    requires goal == FlipDirections(s, pos, color, done, dirs)
    requires Flipped(t, pts) == FlipInDirection(s, pos, color, dirs[0].0, dirs[0].1)
    ensures AllDirections(dirs[1..]) && Grids.Shaped(t.grid)
    ensures goal == FlipDirections(t, pos, color, done + pts, dirs[1..])
  {
    AllDirectionsTail(dirs);
  }
}
