/** Board coordinates: java.awt.Point as the program uses it (x is the column, y the row). */
module Geometry {
  datatype Point = Point(x: int, y: int)

  /** One of the eight unit steps (dx, dy) a ray may take. */
  predicate IsDirection(dx: int, dy: int) {
    -1 <= dx <= 1 && -1 <= dy <= 1 && (dx != 0 || dy != 0)
  }

  function Step(p: Point, dx: int, dy: int): Point {
    Point(p.x + dx, p.y + dy)
  }

  /**
   * The eight directions in the order in which Board.validMove and
   * Board.flipCaptures examine them.
   */
  const Directions: seq<(int, int)> :=
    [(1, 0), (-1, 0), (0, 1), (0, -1), (1, 1), (1, -1), (-1, 1), (-1, -1)]

  predicate AllDirections(dirs: seq<(int, int)>) {
    forall i :: 0 <= i < |dirs| ==> IsDirection(dirs[i].0, dirs[i].1)
  }

  /** Every entry of the list is a unit direction. */
  lemma DirectionsValid()
    ensures AllDirections(Directions)
  {
  }

  /** The list holds every unit direction, each exactly once. */
  lemma DirectionsComplete()
    ensures AllDirections(Directions)
    ensures forall i, j :: 0 <= i < j < |Directions| ==> Directions[i] != Directions[j]
    ensures forall dx, dy :: IsDirection(dx, dy) ==> (dx, dy) in Directions
  {
  }

  /** Every element of a direction list but the first is still a direction. */
  lemma AllDirectionsTail(dirs: seq<(int, int)>)
    requires dirs != [] && AllDirections(dirs)
    ensures AllDirections(dirs[1..])
  {
    forall i | 0 <= i < |dirs[1..]|
      ensures IsDirection(dirs[1..][i].0, dirs[1..][i].1)
    {
      assert dirs[1..][i] == dirs[i + 1];
    }
  }
}
