/**
 * The tile grid of a Board (the `tile` array of Board.java, with each Disk folded
 * into its colour) and the read-only queries on it: validPosition, diskColor,
 * the disk counts the scores track, and the positional counters.
 */
module Grids {
  import opened Colors
  import opened Geometry

  /** rows x columns colours; the tile at Point(x, y) is cells[y][x]. */
  datatype Grid = Grid(rows: int, columns: int, cells: seq<seq<Color>>)

  predicate Shaped(g: Grid) {
    0 <= g.rows && 0 <= g.columns && |g.cells| == g.rows &&
    forall y :: 0 <= y < g.rows ==> |g.cells[y]| == g.columns
  }

  /** validPosition, on the dimensions alone. */
  predicate InBounds(rows: int, columns: int, pos: Point) {
    pos.x >= 0 && pos.y >= 0 && pos.x < columns && pos.y < rows
  }

  predicate ValidPosition(g: Grid, pos: Point) {
    InBounds(g.rows, g.columns, pos)
  }

  /** diskColor: the colour of the tile at pos. */
  function DiskColor(g: Grid, pos: Point): Color
    requires Shaped(g) && ValidPosition(g, pos)
  {
    g.cells[pos.y][pos.x]
  }

  /** The grid with the tile at pos recoloured; every other tile keeps its colour. */
  function SetTile(g: Grid, pos: Point, c: Color): (h: Grid)
    requires Shaped(g) && ValidPosition(g, pos)
    ensures Shaped(h) && h.rows == g.rows && h.columns == g.columns
    ensures DiskColor(h, pos) == c
    ensures forall q :: ValidPosition(g, q) && q != pos ==> DiskColor(h, q) == DiskColor(g, q)
  {
    g.(cells := g.cells[pos.y := g.cells[pos.y][pos.x := c]])
  }

  /** Two shaped grids with the same dimensions and the same colour on every tile are equal. */
  lemma GridExtensionality(g: Grid, h: Grid)
    requires Shaped(g) && Shaped(h) && g.rows == h.rows && g.columns == h.columns
    requires forall q :: ValidPosition(g, q) ==> DiskColor(g, q) == DiskColor(h, q)
    ensures g == h
  {
    forall y | 0 <= y < g.rows
      ensures g.cells[y] == h.cells[y]
    {
      forall x | 0 <= x < g.columns
        ensures g.cells[y][x] == h.cells[y][x]
      {
        assert DiskColor(g, Point(x, y)) == DiskColor(h, Point(x, y));
      }
    }
  }

  function Ind(b: bool): int {
    if b then 1 else 0
  }

  /** Number of tiles of colour c in one row. */
  function CountRow(row: seq<Color>, c: Color): (n: nat)
    ensures n <= |row|
  {
    if row == [] then 0 else Ind(row[0] == c) + CountRow(row[1..], c)
  }

  function CountCells(cells: seq<seq<Color>>, c: Color): nat {
    if cells == [] then 0 else CountRow(cells[0], c) + CountCells(cells[1..], c)
  }

  /** Number of tiles of colour c on the grid. */
  function Count(g: Grid, c: Color): nat {
    CountCells(g.cells, c)
  }

  lemma {:induction false} CountRowUpdate(row: seq<Color>, i: int, v: Color, c: Color)
    requires 0 <= i < |row|
    ensures CountRow(row[i := v], c) == CountRow(row, c) - Ind(row[i] == c) + Ind(v == c)
  {
    if i > 0 {
      assert row[i := v][1..] == row[1..][i - 1 := v];
      CountRowUpdate(row[1..], i - 1, v, c);
    } else {
      assert row[i := v][1..] == row[1..];
    }
  }

  lemma {:induction false} CountCellsUpdate(cells: seq<seq<Color>>, y: int, row: seq<Color>, c: Color)
    requires 0 <= y < |cells|
    ensures CountCells(cells[y := row], c) == CountCells(cells, c) - CountRow(cells[y], c) + CountRow(row, c)
  {
    if y > 0 {
      assert cells[y := row][1..] == cells[1..][y - 1 := row];
      CountCellsUpdate(cells[1..], y - 1, row, c);
    } else {
      assert cells[y := row][1..] == cells[1..];
    }
  }

  /** Recolouring one tile moves exactly that tile between the counts. */
  lemma CountSetTile(g: Grid, pos: Point, v: Color, c: Color)
    requires Shaped(g) && ValidPosition(g, pos)
    ensures Count(SetTile(g, pos, v), c) == Count(g, c) - Ind(DiskColor(g, pos) == c) + Ind(v == c)
  {
    var row := g.cells[pos.y];
    CountRowUpdate(row, pos.x, v, c);
    CountCellsUpdate(g.cells, pos.y, row[pos.x := v], c);
  }

  /** The counts of the three colours add up to the number of tiles. */
  lemma {:induction false} CountRowTotal(row: seq<Color>)
    ensures CountRow(row, BLACK) + CountRow(row, WHITE) + CountRow(row, NONE) == |row|
  {
    if row != [] {
      CountRowTotal(row[1..]);
    }
  }

  /** One more row of c tiles adds c to the tile count. */
  lemma MulStep(n: int, c: int)
    ensures (n + 1) * c == n * c + c
  {
  }

  lemma {:induction false} CountCellsTotal(cells: seq<seq<Color>>, columns: int)
    requires forall y :: 0 <= y < |cells| ==> |cells[y]| == columns
    ensures CountCells(cells, BLACK) + CountCells(cells, WHITE) + CountCells(cells, NONE) == |cells| * columns
  {
    if cells != [] {
      CountRowTotal(cells[0]);
      CountCellsTotal(cells[1..], columns);
      MulStep(|cells[1..]|, columns);
    }
  }

  lemma CountTotal(g: Grid)
    requires Shaped(g)
    ensures Count(g, BLACK) + Count(g, WHITE) + Count(g, NONE) == g.rows * g.columns
  {
    CountCellsTotal(g.cells, g.columns);
  }

  // Positional counters. Each needs a board of at least 2 x 2, as the Java code
  // reads tiles 0, 1, rows - 2, rows - 1 (and the same for columns).

  predicate Countable(g: Grid) {
    Shaped(g) && g.rows >= 2 && g.columns >= 2
  }

  function Owns(g: Grid, pos: Point, color: Color): int
    requires Shaped(g) && ValidPosition(g, pos)
  {
    Ind(DiskColor(g, pos) == color)
  }

  /** Whether the tile at pos is empty. */
  predicate Empty(g: Grid, pos: Point)
    requires Shaped(g) && ValidPosition(g, pos)
  {
    DiskColor(g, pos) == NONE
  }

  function TopLeft(g: Grid): Point { Point(0, 0) }
  function BottomLeft(g: Grid): Point { Point(0, g.rows - 1) }
  function TopRight(g: Grid): Point { Point(g.columns - 1, 0) }
  function BottomRight(g: Grid): Point { Point(g.columns - 1, g.rows - 1) }

  /** cornersOwned: corners (0,0), (0,rows-1), (columns-1,0), (columns-1,rows-1) of that colour. */
  function CornersOwned(g: Grid, color: Color): (n: int)
    requires Countable(g)
    ensures 0 <= n <= 4
    ensures n == 4 <==> DiskColor(g, TopLeft(g)) == color && DiskColor(g, BottomLeft(g)) == color &&
                        DiskColor(g, TopRight(g)) == color && DiskColor(g, BottomRight(g)) == color
  {
    Owns(g, TopLeft(g), color) + Owns(g, BottomLeft(g), color) +
    Owns(g, TopRight(g), color) + Owns(g, BottomRight(g), color)
  }

  /** xSquaresOwned: the four squares diagonally inside the corners. */
  function XSquaresOwned(g: Grid, color: Color): (n: int)
    requires Countable(g)
    ensures 0 <= n <= 4
  {
    Owns(g, Point(1, 1), color) + Owns(g, Point(1, g.rows - 2), color) +
    Owns(g, Point(g.columns - 2, 1), color) + Owns(g, Point(g.columns - 2, g.rows - 2), color)
  }

  /** badXSquaresOwned: X-squares of that colour whose corner is empty. */
  function BadXSquaresOwned(g: Grid, color: Color): (n: int)
    requires Countable(g)
    ensures 0 <= n <= XSquaresOwned(g, color)
    ensures !Empty(g, TopLeft(g)) && !Empty(g, BottomLeft(g)) && !Empty(g, TopRight(g)) && !Empty(g, BottomRight(g)) ==> n == 0
    ensures Empty(g, TopLeft(g)) && Empty(g, BottomLeft(g)) && Empty(g, TopRight(g)) && Empty(g, BottomRight(g)) ==>
      n == XSquaresOwned(g, color)
  {
    Owns(g, Point(1, 1), color) * Ind(Empty(g, TopLeft(g))) +
    Owns(g, Point(1, g.rows - 2), color) * Ind(Empty(g, BottomLeft(g))) +
    Owns(g, Point(g.columns - 2, 1), color) * Ind(Empty(g, TopRight(g))) +
    Owns(g, Point(g.columns - 2, g.rows - 2), color) * Ind(Empty(g, BottomRight(g)))
  }

  /** cSquaresOwned: the eight squares orthogonally next to the corners. */
  function CSquaresOwned(g: Grid, color: Color): (n: int)
    requires Countable(g)
    ensures 0 <= n <= 8
  {
    Owns(g, Point(0, 1), color) + Owns(g, Point(1, 0), color) +
    Owns(g, Point(0, g.rows - 2), color) + Owns(g, Point(1, g.rows - 1), color) +
    Owns(g, Point(g.columns - 2, 0), color) + Owns(g, Point(g.columns - 1, 1), color) +
    Owns(g, Point(g.columns - 1, g.rows - 2), color) + Owns(g, Point(g.columns - 2, g.rows - 1), color)
  }

  /** badCSquaresOwned: C-squares of that colour whose corner is empty. */
  function BadCSquaresOwned(g: Grid, color: Color): (n: int)
    requires Countable(g)
    ensures 0 <= n <= CSquaresOwned(g, color)
    ensures !Empty(g, TopLeft(g)) && !Empty(g, BottomLeft(g)) && !Empty(g, TopRight(g)) && !Empty(g, BottomRight(g)) ==> n == 0
    ensures Empty(g, TopLeft(g)) && Empty(g, BottomLeft(g)) && Empty(g, TopRight(g)) && Empty(g, BottomRight(g)) ==>
      n == CSquaresOwned(g, color)
  {
    (Owns(g, Point(0, 1), color) + Owns(g, Point(1, 0), color)) * Ind(Empty(g, TopLeft(g))) +
    (Owns(g, Point(0, g.rows - 2), color) + Owns(g, Point(1, g.rows - 1), color)) * Ind(Empty(g, BottomLeft(g))) +
    (Owns(g, Point(g.columns - 2, 0), color) + Owns(g, Point(g.columns - 1, 1), color)) * Ind(Empty(g, TopRight(g))) +
    (Owns(g, Point(g.columns - 1, g.rows - 2), color) + Owns(g, Point(g.columns - 2, g.rows - 1), color)) * Ind(Empty(g, BottomRight(g)))
  }

  /** The corners in the order the counters visit them: top-left, bottom-left, top-right, bottom-right. */
  function Corner(g: Grid, i: int): (p: Point)
    requires Countable(g) && 0 <= i < 4
    ensures ValidPosition(g, p)
  {
    if i == 0 then TopLeft(g) else if i == 1 then BottomLeft(g) else if i == 2 then TopRight(g) else BottomRight(g)
  }

  /** The X-square diagonally inside Corner(g, i). */
  function XSquare(g: Grid, i: int): (p: Point)
    requires Countable(g) && 0 <= i < 4
    ensures ValidPosition(g, p)
  {
    Point(if i < 2 then 1 else g.columns - 2, if i % 2 == 0 then 1 else g.rows - 2)
  }

  /** The two C-squares beside Corner(g, k / 2), in the order cSquaresOwned lists them. */
  function CSquare(g: Grid, k: int): (p: Point)
    requires Countable(g) && 0 <= k < 8
    ensures ValidPosition(g, p)
    ensures p.x == Corner(g, k / 2).x || p.y == Corner(g, k / 2).y
    ensures (p.x - Corner(g, k / 2).x) * (p.x - Corner(g, k / 2).x) + (p.y - Corner(g, k / 2).y) * (p.y - Corner(g, k / 2).y) == 1
  {
    if k == 0 then Point(0, 1) else if k == 1 then Point(1, 0)
    else if k == 2 then Point(0, g.rows - 2) else if k == 3 then Point(1, g.rows - 1)
    else if k == 4 then Point(g.columns - 2, 0) else if k == 5 then Point(g.columns - 1, 1)
    else if k == 6 then Point(g.columns - 1, g.rows - 2) else Point(g.columns - 2, g.rows - 1)
  }

  /** The number of entries of bs that hold. */
  function Trues(bs: seq<bool>): (n: nat)
    ensures n <= |bs|
  {
    if bs == [] then 0 else Trues(bs[..|bs| - 1]) + Ind(bs[|bs| - 1])
  }

  /** Trues counts the indices at which bs holds. */
  lemma {:induction false} TruesCount(bs: seq<bool>)
    ensures |set i | 0 <= i < |bs| && bs[i]| == Trues(bs)
  {
    if bs != [] {
      var n := |bs| - 1;
      TruesCount(bs[..n]);
      var front := set i | 0 <= i < n && bs[..n][i];
      assert front == set i | 0 <= i < n && bs[i];
      if bs[n] {
        assert (set i | 0 <= i < |bs| && bs[i]) == front + {n};
      } else {
        assert (set i | 0 <= i < |bs| && bs[i]) == front;
      }
    }
  }

  lemma TruesPrefix(bs: seq<bool>, k: int)
    requires 0 < k <= |bs|
    ensures Trues(bs[..k]) == Trues(bs[..k - 1]) + Ind(bs[k - 1])
  {
    assert bs[..k][..k - 1] == bs[..k - 1];
  }

  /** Trues as a sum, entry by entry, for the short lists of the corner counters. */
  lemma TruesSteps(bs: seq<bool>)
    requires |bs| == 4 || |bs| == 8
    ensures |bs| == 4 ==> Trues(bs) == Ind(bs[0]) + Ind(bs[1]) + Ind(bs[2]) + Ind(bs[3])
    ensures |bs| == 8 ==> Trues(bs) == Ind(bs[0]) + Ind(bs[1]) + Ind(bs[2]) + Ind(bs[3]) +
                                       Ind(bs[4]) + Ind(bs[5]) + Ind(bs[6]) + Ind(bs[7])
  {
    assert Trues(bs[..0]) == 0 && bs[..|bs|] == bs;
    TruesPrefix(bs, 1);
    TruesPrefix(bs, 2);
    TruesPrefix(bs, 3);
    TruesPrefix(bs, 4);
    if |bs| == 8 {
      TruesPrefix(bs, 5);
      TruesPrefix(bs, 6);
      TruesPrefix(bs, 7);
      TruesPrefix(bs, 8);
    }
  }

  /** The X-square of corner i has that colour while the corner is empty. */
  predicate BadX(g: Grid, color: Color, i: int)
    requires Countable(g) && 0 <= i < 4
  {
    DiskColor(g, XSquare(g, i)) == color && Empty(g, Corner(g, i))
  }

  /** C-square k has that colour while its corner is empty. */
  predicate BadC(g: Grid, color: Color, k: int)
    requires Countable(g) && 0 <= k < 8
  {
    DiskColor(g, CSquare(g, k)) == color && Empty(g, Corner(g, k / 2))
  }

  /** The four X-square tests as a list whose count of trues is badXSquaresOwned. */
  lemma BadXList(g: Grid, color: Color) returns (bs: seq<bool>)
    requires Countable(g)
    ensures |bs| == 4 && (forall i :: 0 <= i < 4 ==> bs[i] == BadX(g, color, i))
    ensures Trues(bs) == BadXSquaresOwned(g, color)
  {
    bs := [BadX(g, color, 0), BadX(g, color, 1), BadX(g, color, 2), BadX(g, color, 3)];
    forall i | 0 <= i < 4
      ensures bs[i] == BadX(g, color, i)
    {
      if i == 0 {} else if i == 1 {} else if i == 2 {} else {}
    }
    TruesSteps(bs);
    assert Ind(bs[0]) == Owns(g, Point(1, 1), color) * Ind(Empty(g, TopLeft(g)));
    assert Ind(bs[1]) == Owns(g, Point(1, g.rows - 2), color) * Ind(Empty(g, BottomLeft(g)));
    assert Ind(bs[2]) == Owns(g, Point(g.columns - 2, 1), color) * Ind(Empty(g, TopRight(g)));
    assert Ind(bs[3]) == Owns(g, Point(g.columns - 2, g.rows - 2), color) * Ind(Empty(g, BottomRight(g)));
  }

  /**
   * badXSquaresOwned counts exactly the corners whose tile is empty while
   * the X-square diagonally inside them has that colour.
   */
  lemma BadXSquaresPerCorner(g: Grid, color: Color)
    requires Countable(g)
    ensures BadXSquaresOwned(g, color) == |set i | 0 <= i < 4 && BadX(g, color, i)|
  {
    var bs := BadXList(g, color);
    TruesCount(bs);
    assert (set i | 0 <= i < |bs| && bs[i]) == set i | 0 <= i < 4 && BadX(g, color, i);
  }

  lemma BadCPair(g: Grid, color: Color, i: int)
    requires Countable(g) && 0 <= i < 4
    ensures Ind(BadC(g, color, 2 * i)) + Ind(BadC(g, color, 2 * i + 1)) ==
      (Owns(g, CSquare(g, 2 * i), color) + Owns(g, CSquare(g, 2 * i + 1), color)) * Ind(Empty(g, Corner(g, i)))
  {
    assert (2 * i) / 2 == i && (2 * i + 1) / 2 == i;
  }

  /** badCSquaresOwned, corner by corner, over the C-square table. */
  lemma BadCSum(g: Grid, color: Color)
    requires Countable(g)
    ensures BadCSquaresOwned(g, color) ==
      Ind(BadC(g, color, 0)) + Ind(BadC(g, color, 1)) + Ind(BadC(g, color, 2)) + Ind(BadC(g, color, 3)) +
      Ind(BadC(g, color, 4)) + Ind(BadC(g, color, 5)) + Ind(BadC(g, color, 6)) + Ind(BadC(g, color, 7))
  {
    BadCPair(g, color, 0);
    BadCPair(g, color, 1);
    BadCPair(g, color, 2);
    BadCPair(g, color, 3);
  }

  /** The eight C-square tests as a list whose count of trues is badCSquaresOwned. */
  lemma BadCList(g: Grid, color: Color) returns (bs: seq<bool>)
    requires Countable(g)
    ensures |bs| == 8 && (forall k :: 0 <= k < 8 ==> bs[k] == BadC(g, color, k))
    ensures Trues(bs) == BadCSquaresOwned(g, color)
  {
    bs := seq(8, k requires 0 <= k < 8 => BadC(g, color, k));
    TruesSteps(bs);
    BadCSum(g, color);
  }

  /**
   * badCSquaresOwned counts the C-squares of that colour whose own corner is
   * empty, each corner contributing its two C-squares.
   */
  lemma BadCSquaresPerCorner(g: Grid, color: Color)
    requires Countable(g)
    ensures BadCSquaresOwned(g, color) == |set k | 0 <= k < 8 && BadC(g, color, k)|
  {
    var bs := BadCList(g, color);
    TruesCount(bs);
    assert (set k | 0 <= k < |bs| && bs[k]) == set k | 0 <= k < 8 && BadC(g, color, k);
  }

  /** initializeBoard: the colour of tile (row, col) of a new board. */
  function InitialColor(rows: int, row: int, col: int): Color {
    var down, up := rows / 2 - 1, rows / 2;
    if (row == down && col == down) || (row == up && col == up) then BLACK
    else if (row == down && col == up) || (row == up && col == down) then WHITE
    else NONE
  }

  /** The dimensions initializeBoard can fill: the four centre tiles must exist. */
  predicate Initializable(rows: int, columns: int) {
    2 <= rows && rows / 2 < columns
  }

  function InitialGrid(rows: int, columns: int): (g: Grid)
    requires Initializable(rows, columns)
    ensures Shaped(g) && g.rows == rows && g.columns == columns
  {
    Grid(rows, columns, seq(rows, r => seq(columns, c => InitialColor(rows, r, c))))
  }
}
