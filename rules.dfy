/**
 * The rules of Board.java and Player.java as functions on board values: the ray
 * test of validInDirection and validMove, the flips of flipDisk, removeDisk,
 * flipInDirection and flipCaptures, the row-major move list of
 * Player.updateValidMoves, and updateTurn, updateGameStatus, updateBoard and
 * placeDisk. The classes in GameBoard are proved to compute exactly these.
 */
module Rules {
  import opened Wrappers
  import opened Colors
  import opened Geometry
  import opened Grids

  /** The fields of a Player (Player.java). */
  datatype PlayerState = PlayerState(color: Color, isComputer: bool, score: int, validMoves: seq<Point>)

  /** The fields of a Board (Board.java); `winner` is None while Java holds null. */
  datatype BoardState = BoardState(
    grid: Grid,
    black: PlayerState,
    white: PlayerState,
    playerTurn: Color,
    gameEnded: bool,
    winner: Option<Color>,
    turn: int)

  // ---------------------------------------------------------------- rays

  /** How many steps in direction (dx, dy) lead from p off the board: the measure of every ray walk. */
  function Span(rows: int, columns: int, p: Point, dx: int, dy: int): nat {
    var v :=
      if dx == 1 then columns - p.x
      else if dx == -1 then p.x + 1
      else if dy == 1 then rows - p.y
      else p.y + 1;
    if v < 0 then 0 else v
  }

  /**
   * The loop of validInDirection: walking from pos, a tile of `color` is met
   * before an empty tile or the edge of the board.
   */
  function ReachesColor(g: Grid, pos: Point, color: Color, dx: int, dy: int): bool
    requires Shaped(g) && IsDirection(dx, dy)
    decreases Span(g.rows, g.columns, pos, dx, dy)
  {
    if !ValidPosition(g, pos) then false
    else if DiskColor(g, pos) == color then true
    else if DiskColor(g, pos) == NONE then false
    else ReachesColor(g, Step(pos, dx, dy), color, dx, dy)
  }

  /**
   * validInDirection: the neighbour of position in direction (dx, dy) holds an
   * opponent disk, and the ray beyond it reaches a disk of `color`. A colour
   * without an opposite (NONE) is never valid, as diskColor is never null.
   */
  function ValidInDirection(g: Grid, position: Point, color: Color, dx: int, dy: int): bool
    requires Shaped(g) && IsDirection(dx, dy)
  {
    var next := Step(position, dx, dy);
    ValidPosition(g, next) && Some(DiskColor(g, next)) == OppositeColor(color) &&
    ReachesColor(g, Step(next, dx, dy), color, dx, dy)
  }

  /**
   * validMove: false off the board, for NONE, or on an occupied tile; otherwise
   * the directions are tried in the order of Board.validMove.
   */
  function ValidMove(g: Grid, pos: Point, color: Color): bool
    requires Shaped(g)
  {
    if !ValidPosition(g, pos) || color == NONE || DiskColor(g, pos) != NONE then false
    else
      ValidInDirection(g, pos, color, 1, 0) || ValidInDirection(g, pos, color, -1, 0) ||
      ValidInDirection(g, pos, color, 0, 1) || ValidInDirection(g, pos, color, 0, -1) ||
      ValidInDirection(g, pos, color, 1, 1) || ValidInDirection(g, pos, color, 1, -1) ||
      ValidInDirection(g, pos, color, -1, 1) || ValidInDirection(g, pos, color, -1, -1)
  }

  // ---------------------------------------------------------------- disks and scores

  /** The score of `player` after the tile at pos changes from oldColor to newColor. */
  function Rescore(player: PlayerState, who: Color, oldColor: Color, newColor: Color): PlayerState {
    player.(score := player.score - Ind(oldColor == who) + Ind(newColor == who))
  }

  /** flipDisk: recolour the tile and move it between the two scores. */
  function FlipDisk(s: BoardState, pos: Point, newColor: Color): (t: BoardState)
    requires Shaped(s.grid) && ValidPosition(s.grid, pos)
    ensures Shaped(t.grid) && t.grid.rows == s.grid.rows && t.grid.columns == s.grid.columns
  {
    var oldColor := DiskColor(s.grid, pos);
    s.(grid := SetTile(s.grid, pos, newColor),
       black := Rescore(s.black, BLACK, oldColor, newColor),
       white := Rescore(s.white, WHITE, oldColor, newColor))
  }

  /** removeDisk: empty the tile and take it off its owner's score. */
  function RemoveDisk(s: BoardState, pos: Point): (t: BoardState)
    requires Shaped(s.grid) && ValidPosition(s.grid, pos)
    ensures Shaped(t.grid) && t.grid.rows == s.grid.rows && t.grid.columns == s.grid.columns
  {
    var oldColor := DiskColor(s.grid, pos);
    s.(grid := SetTile(s.grid, pos, NONE),
       black := Rescore(s.black, BLACK, oldColor, NONE),
       white := Rescore(s.white, WHITE, oldColor, NONE))
  }

  /** A board together with the list of points a flip operation returned. */
  datatype Flipped = Flipped(board: BoardState, points: seq<Point>)

  /** The loop of flipInDirection: flip the run of `opponent` disks starting at pos. */
  function FlipRun(s: BoardState, pos: Point, color: Color, opponent: Color, dx: int, dy: int): (r: Flipped)
    requires Shaped(s.grid) && IsDirection(dx, dy)
    ensures Shaped(r.board.grid) && r.board.grid.rows == s.grid.rows && r.board.grid.columns == s.grid.columns
    decreases Span(s.grid.rows, s.grid.columns, pos, dx, dy)
  {
    if ValidPosition(s.grid, pos) && DiskColor(s.grid, pos) == opponent then
      var rest := FlipRun(FlipDisk(s, pos, color), Step(pos, dx, dy), color, opponent, dx, dy);
      Flipped(rest.board, [pos] + rest.points)
    else
      Flipped(s, [])
  }

  /** flipInDirection: nothing unless the direction is valid; then the run next to position. */
  function FlipInDirection(s: BoardState, position: Point, color: Color, dx: int, dy: int): (r: Flipped)
    requires Shaped(s.grid) && IsDirection(dx, dy)
    ensures Shaped(r.board.grid) && r.board.grid.rows == s.grid.rows && r.board.grid.columns == s.grid.columns
  {
    if !ValidInDirection(s.grid, position, color, dx, dy) then Flipped(s, [])
    else FlipRun(s, Step(position, dx, dy), color, OppositeColor(color).value, dx, dy)
  }

  /**
   * flipInDirection for each direction of dirs in turn, appending the points
   * each one flips to those already collected in `done`.
   */
  function FlipDirections(s: BoardState, pos: Point, color: Color, done: seq<Point>, dirs: seq<(int, int)>): (r: Flipped)
    requires Shaped(s.grid) && AllDirections(dirs)
    ensures Shaped(r.board.grid) && r.board.grid.rows == s.grid.rows && r.board.grid.columns == s.grid.columns
    decreases |dirs|, s  // `s` only stops the solver from unfolding all eight steps whenever dirs is a literal
  {
    if dirs == [] then Flipped(s, done)
    else
      AllDirectionsTail(dirs);
      var first := FlipInDirection(s, pos, color, dirs[0].0, dirs[0].1);
      FlipDirections(first.board, pos, color, done + first.points, dirs[1..])
  }

  /** flipCaptures: nothing off the board; otherwise the eight directions of Board.flipCaptures. */
  function FlipCaptures(s: BoardState, pos: Point, color: Color): (r: Flipped)
    requires Shaped(s.grid)
    ensures Shaped(r.board.grid) && r.board.grid.rows == s.grid.rows && r.board.grid.columns == s.grid.columns
  {
    DirectionsValid();
    if !ValidPosition(s.grid, pos) then Flipped(s, [])
    else FlipDirections(s, pos, color, [], Directions)
  }

  // ---------------------------------------------------------------- move lists

  /** The legal points of row `row` among its first n columns, left to right. */
  function RowMoves(g: Grid, color: Color, row: int, n: int): seq<Point>
    requires Shaped(g)
    decreases n, g  // `g` only keeps a literal n (a board of 8 columns) from unfolding the whole row
  {
    if n <= 0 then []
    else RowMoves(g, color, row, n - 1) + (if ValidMove(g, Point(n - 1, row), color) then [Point(n - 1, row)] else [])
  }

  /** The legal points of the first m rows, in row-major order. */
  function MovesBefore(g: Grid, color: Color, m: int): seq<Point>
    requires Shaped(g)
    decreases m, g  // likewise for a literal number of rows
  {
    if m <= 0 then [] else MovesBefore(g, color, m - 1) + RowMoves(g, color, m - 1, g.columns)
  }

  /** The list Player.updateValidMoves builds: every legal point, rows outer, columns inner. */
  function ValidMoves(g: Grid, color: Color): seq<Point>
    requires Shaped(g)
  {
    MovesBefore(g, color, g.rows)
  }

  // ---------------------------------------------------------------- turn and status

  /**
   * updateTurn: the turn passes to the other side only if that side has a
   * move; the turn counter is recomputed from the scores.
   */
  function UpdateTurn(s: BoardState): BoardState {
    var next :=
      if s.playerTurn == WHITE && |s.black.validMoves| > 0 then BLACK
      else if s.playerTurn == BLACK && |s.white.validMoves| > 0 then WHITE
      else s.playerTurn;
    s.(playerTurn := next, turn := s.black.score + s.white.score - 3)
  }

  /** getCurrentPlayer: blackPlayer when BLACK is to move, whitePlayer otherwise. */
  function CurrentPlayer(s: BoardState): PlayerState {
    if s.playerTurn == BLACK then s.black else s.white
  }

  /** The winner updateGameStatus records: the higher score, or NONE on a tie. */
  function Leader(s: BoardState): Color {
    if s.black.score > s.white.score then BLACK
    else if s.white.score > s.black.score then WHITE
    else NONE
  }

  /** updateGameStatus: when neither side has a move the game ends and the winner is set. */
  function UpdateGameStatus(s: BoardState): BoardState {
    if s.black.validMoves == [] && s.white.validMoves == [] then
      s.(gameEnded := true, winner := Some(Leader(s)))
    else s
  }

  /** updateBoard: both move lists, then the turn, then the game status. */
  function UpdateBoard(s: BoardState): BoardState
    requires Shaped(s.grid)
  {
    var s1 := s.(black := s.black.(validMoves := ValidMoves(s.grid, s.black.color)));
    var s2 := s1.(white := s1.white.(validMoves := ValidMoves(s1.grid, s1.white.color)));
    UpdateGameStatus(UpdateTurn(s2))
  }

  /** The points flipCaptures returns when `color` is placed at pos (Command.execute keeps them). */
  function Captures(s: BoardState, pos: Point, color: Color): seq<Point>
    requires Shaped(s.grid) && ValidPosition(s.grid, pos)
  {
    FlipCaptures(FlipDisk(s, pos, color), pos, color).points
  }

  /** placeDisk (and Command.execute): flipDisk, flipCaptures, updateBoard. */
  function PlaceDisk(s: BoardState, pos: Point, color: Color): BoardState
    requires Shaped(s.grid) && ValidPosition(s.grid, pos)
  {
    UpdateBoard(FlipCaptures(FlipDisk(s, pos, color), pos, color).board)
  }

  // ---------------------------------------------------------------- undoing a move

  /** The loop of Command.undo: flipDisk every point of pts to c, in list order. */
  function FlipAll(s: BoardState, pts: seq<Point>, c: Color): (t: BoardState)
    requires Shaped(s.grid) && forall q :: q in pts ==> ValidPosition(s.grid, q)
    ensures Shaped(t.grid) && t.grid.rows == s.grid.rows && t.grid.columns == s.grid.columns
    decreases |pts|
  {
    if pts == [] then s
    else
      assert forall q :: q in pts[1..] ==> q in pts;
      FlipAll(FlipDisk(s, pts[0], c), pts[1..], c)
  }

  /**
   * Command.undo: empty the destination, flip each captured point to the
   * opposite of the command's colour, then updateBoard. A NONE command has no
   * opposite colour; it never captures anything, so its list is empty.
   */
  function UndoMove(s: BoardState, color: Color, destination: Point, captured: seq<Point>): BoardState
    requires Shaped(s.grid) && ValidPosition(s.grid, destination)
    requires forall q :: q in captured ==> ValidPosition(s.grid, q)
    requires color != NONE || captured == []
  {
    var opponent := if color == NONE then NONE else OppositeColor(color).value;
    UpdateBoard(FlipAll(RemoveDisk(s, destination), captured, opponent))
  }

  // ---------------------------------------------------------------- a new board

  /** The state the Board constructor leaves: two disks each, BLACK to move, turn 1. */
  function InitialState(rows: int, columns: int): (s: BoardState)
    requires Initializable(rows, columns)
    ensures Shaped(s.grid)
  {
    var g := InitialGrid(rows, columns);
    BoardState(g,
      PlayerState(BLACK, false, 2, ValidMoves(g, BLACK)),
      PlayerState(WHITE, false, 2, ValidMoves(g, WHITE)),
      BLACK, false, None, 1)
  }
}
