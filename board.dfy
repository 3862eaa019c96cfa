/**
 * The mutable Board and Player objects of Board.java and Player.java. The
 * tiles live in an array2, the players are separate objects holding their
 * score and move list, and every method is proved to leave exactly the state
 * the corresponding function of Rules computes from the state before.
 */
module GameBoard {
  import opened Wrappers
  import opened Colors
  import opened Geometry
  import Grids
  import opened Rules
  import FlipProperties
  import CaptureSteps
  import BoardProperties

  /** Player.java: a colour, a human/computer flag, a score and the list of legal moves. */
  class Player {
    const color: Color
    const isComputer: bool
    var score: int
    var validMoves: seq<Point>

    function State(): PlayerState
      reads this
    {
      PlayerState(color, isComputer, score, validMoves)
    }

    /** A new player starts with the two centre disks and the moves the board offers it. */
    constructor (board: Board, color: Color, computer: bool)
      requires board.Shape()
      ensures State() == PlayerState(color, computer, 2, ValidMoves(board.Grid(), color))
    {
      this.color := color;
      isComputer := computer;
      score := 2;
      validMoves := [];
      new;
      UpdateValidMoves(board);
    }

    /** The copy constructor: same colour, flag, score and moves, in a new object. */
    constructor Copy(other: Player)
      ensures State() == other.State()
    {
      color := other.color;
      isComputer := other.isComputer;
      score := other.score;
      validMoves := other.validMoves;
    }

    /**
     * updateValidMoves: the previous list is dropped and every tile is tried,
     * rows outer and columns inner, appending the legal ones.
     */
    method UpdateValidMoves(board: Board)
      requires board.Shape()
      modifies this`validMoves
      ensures validMoves == ValidMoves(board.Grid(), color)
    {
      ghost var g := board.Grid();
      validMoves := [];
      var row := 0;
      while row < board.rows
        invariant 0 <= row <= board.rows
        invariant validMoves == MovesBefore(g, color, row)
      {
        AppendRowMoves(board, g, row);
        row := row + 1;
      }
    }

    /** The inner loop of updateValidMoves: the legal points of one row, left to right, appended to the list. */
    method AppendRowMoves(board: Board, ghost g: Grids.Grid, row: int)
      requires board.Shape() && board.Grid() == g
      modifies this`validMoves
      ensures validMoves == old(validMoves) + RowMoves(g, color, row, g.columns)
    {
      ghost var before := validMoves;
      var col := 0;
      while col < board.columns
        invariant 0 <= col <= board.columns
        invariant validMoves == before + RowMoves(g, color, row, col)
      {
        var movePoint := Point(col, row);
        var valid := board.ValidMove(movePoint, color);
        BoardProperties.AppendMove(before, g, color, row, col, valid);
        if valid {
          validMoves := validMoves + [movePoint];
        }
        col := col + 1;
      }
    }
  }

  /** Board.java: the tile grid, the two players and the turn and status fields. */
  class Board {
    const rows: int
    const columns: int
    /** tile[y, x] is the colour of the disk at Point(x, y). */
    const tile: array2<Color>
    var blackPlayer: Player?
    var whitePlayer: Player?
    var playerTurn: Color
    var gameEnded: bool
    var winner: Option<Color>
    var turn: int

    /** The tile array has the board's dimensions. */
    predicate Shape() {
      0 <= rows && 0 <= columns && tile.Length0 == rows && tile.Length1 == columns
    }

    /** Both players exist and are different objects. */
    predicate Valid()
      reads this`blackPlayer, this`whitePlayer
    {
      Shape() && blackPlayer != null && whitePlayer != null && blackPlayer != whitePlayer
    }

    /** The tiles as a grid value. */
    function Grid(): (g: Grids.Grid)
      requires Shape()
      reads tile
      ensures Grids.Shaped(g) && g.rows == rows && g.columns == columns
      ensures forall q :: Grids.ValidPosition(g, q) ==> Grids.DiskColor(g, q) == tile[q.y, q.x]
    {
      Grids.Grid(rows, columns,
        seq(rows, (y: int) requires 0 <= y < rows reads tile =>
          seq(columns, (x: int) requires 0 <= x < columns reads tile => tile[y, x])))
    }

    /** The whole board as a value. */
    function State(): (s: BoardState)
      requires Valid()
      reads this, tile, blackPlayer, whitePlayer
      ensures Grids.Shaped(s.grid) && s.grid.rows == rows && s.grid.columns == columns
    {
      BoardState(Grid(), blackPlayer.State(), whitePlayer.State(), playerTurn, gameEnded, winner, turn)
    }

    /** validPosition. */
    predicate ValidPosition(pos: Point) {
      pos.x >= 0 && pos.y >= 0 && pos.x < columns && pos.y < rows
    }

    /** diskColor. */
    function DiskColor(pos: Point): (c: Color)
      requires Shape() && ValidPosition(pos)
      reads tile
      ensures c == Grids.DiskColor(Grid(), pos)
    {
      tile[pos.y, pos.x]
    }

    /** getCurrentPlayer: blackPlayer on BLACK's turn, whitePlayer otherwise. */
    function GetCurrentPlayer(): (p: Player)
      requires Valid()
      reads this`blackPlayer, this`whitePlayer, this`playerTurn, blackPlayer, whitePlayer
      ensures p.State() == CurrentPlayer(State())
    {
      if playerTurn == BLACK then blackPlayer else whitePlayer
    }

    /**
     * validInDirection: the neighbour must hold the opponent's colour; then the
     * walk continues until a disk of `color` (valid), an empty tile or the edge.
     */
    method ValidInDirection(position: Point, color: Color, xDirection: int, yDirection: int) returns (valid: bool)
      requires Shape() && IsDirection(xDirection, yDirection)
      ensures valid == Rules.ValidInDirection(Grid(), position, color, xDirection, yDirection)
    {
      var opponentColor := OppositeColor(color);
      var pos := Step(position, xDirection, yDirection);
      if !ValidPosition(pos) || Some(DiskColor(pos)) != opponentColor {
        return false;
      }
      pos := Step(pos, xDirection, yDirection);
      ghost var start := pos;
      while ValidPosition(pos)
        invariant ReachesColor(Grid(), pos, color, xDirection, yDirection) ==
                  ReachesColor(Grid(), start, color, xDirection, yDirection)
        decreases Span(rows, columns, pos, xDirection, yDirection)
      {
        if DiskColor(pos) == color {
          return true;
        } else if DiskColor(pos) == NONE {
          return false;
        }
        pos := Step(pos, xDirection, yDirection);
      }
      return false;
    }

    /** validMove: off the board, NONE or an occupied tile is never valid; then the eight directions in turn. */
    method ValidMove(pos: Point, color: Color) returns (valid: bool)
      requires Shape()
      ensures valid == Rules.ValidMove(Grid(), pos, color)
    {
      if !ValidPosition(pos) || color == NONE || tile[pos.y, pos.x] != NONE {
        return false;
      }
      valid := ValidInDirection(pos, color, 1, 0);
      if valid { return; }
      valid := ValidInDirection(pos, color, -1, 0);
      if valid { return; }
      valid := ValidInDirection(pos, color, 0, 1);
      if valid { return; }
      valid := ValidInDirection(pos, color, 0, -1);
      if valid { return; }
      valid := ValidInDirection(pos, color, 1, 1);
      if valid { return; }
      valid := ValidInDirection(pos, color, 1, -1);
      if valid { return; }
      valid := ValidInDirection(pos, color, -1, 1);
      if valid { return; }
      valid := ValidInDirection(pos, color, -1, -1);
    }

    /** The new Board: initialised tiles, two fresh players, BLACK to move, turn 1. */
    constructor (rows: int, columns: int)
      requires Grids.Initializable(rows, columns)
      ensures Valid() && fresh(tile) && fresh(blackPlayer) && fresh(whitePlayer)
      ensures State() == InitialState(rows, columns)
    {
      this.rows := rows;
      this.columns := columns;
      tile := new Color[rows, columns];
      new;
      InitializeBoard();
      blackPlayer := new Player(this, BLACK, false);
      whitePlayer := new Player(this, WHITE, false);
      playerTurn := BLACK;
      gameEnded := false;
      winner := None;
      turn := 1;
    }

    /** The copy constructor: a deep copy, sharing no object with the original. */
    constructor Copy(other: Board)
      requires other.Valid()
      ensures Valid() && fresh(tile) && fresh(blackPlayer) && fresh(whitePlayer)
      ensures State() == other.State()
    {
      rows := other.rows;
      columns := other.columns;
      tile := new Color[other.rows, other.columns];
      new;
      CopyTiles(other.tile);
      Grids.GridExtensionality(Grid(), other.Grid());
      blackPlayer := new Player.Copy(other.blackPlayer);
      whitePlayer := new Player.Copy(other.whitePlayer);
      playerTurn := other.playerTurn;
      gameEnded := other.gameEnded;
      winner := other.winner;
      turn := other.turn;
    }

    /** The loops of the copy constructor: every tile of source, row by row, into this board's tiles. */
    method CopyTiles(source: array2<Color>)
      requires Shape() && source != tile && source.Length0 == rows && source.Length1 == columns
      modifies tile
      ensures forall y, x :: 0 <= y < rows && 0 <= x < columns ==> tile[y, x] == source[y, x]
    {
      var row := 0;
      while row < rows
        invariant 0 <= row <= rows
        invariant forall y, x :: 0 <= y < row && 0 <= x < columns ==> tile[y, x] == source[y, x]
      {
        var col := 0;
        while col < columns
          invariant 0 <= col <= columns
          invariant forall y, x :: 0 <= y < row && 0 <= x < columns ==> tile[y, x] == source[y, x]
          invariant forall x :: 0 <= x < col ==> tile[row, x] == source[row, x]
        {
          tile[row, col] := source[row, col];
          col := col + 1;
        }
        row := row + 1;
      }
    }

    /** initializeBoard: every tile empty, then the two BLACK and two WHITE centre disks. */
    method InitializeBoard()
      requires Shape() && Grids.Initializable(rows, columns)
      modifies tile
      ensures Grid() == Grids.InitialGrid(rows, columns)
    {
      var row := 0;
      while row < rows
        invariant 0 <= row <= rows
        invariant forall y, x :: 0 <= y < row && 0 <= x < columns ==> tile[y, x] == NONE
      {
        var col := 0;
        while col < columns
          invariant 0 <= col <= columns
          invariant forall y, x :: 0 <= y < row && 0 <= x < columns ==> tile[y, x] == NONE
          invariant forall x :: 0 <= x < col ==> tile[row, x] == NONE
        {
          tile[row, col] := NONE;
          col := col + 1;
        }
        row := row + 1;
      }
      var centerRoundDown := rows / 2 - 1;
      var centerRoundUp := rows / 2;
      tile[centerRoundDown, centerRoundDown] := BLACK;
      tile[centerRoundUp, centerRoundUp] := BLACK;
      tile[centerRoundDown, centerRoundUp] := WHITE;
      tile[centerRoundUp, centerRoundDown] := WHITE;
      Grids.GridExtensionality(Grid(), Grids.InitialGrid(rows, columns));
    }

    /** removeDisk: the tile becomes empty and its owner loses one point. */
    method RemoveDisk(pos: Point)
      requires Valid() && ValidPosition(pos)
      modifies tile, blackPlayer`score, whitePlayer`score
      ensures State() == Rules.RemoveDisk(old(State()), pos)
    {
      var oldColor := tile[pos.y, pos.x];
      tile[pos.y, pos.x] := NONE;
      Grids.GridExtensionality(Grid(), Grids.SetTile(old(Grid()), pos, NONE));
      if oldColor == BLACK {
        blackPlayer.score := blackPlayer.score - 1;
      } else if oldColor == WHITE {
        whitePlayer.score := whitePlayer.score - 1;
      }
    }

    /** flipDisk: the tile takes newColor; its old owner loses a point and its new owner gains one. */
    method FlipDisk(pos: Point, newColor: Color)
      requires Valid() && ValidPosition(pos)
      modifies tile, blackPlayer`score, whitePlayer`score
      ensures State() == Rules.FlipDisk(old(State()), pos, newColor)
    {
      var oldColor := tile[pos.y, pos.x];
      tile[pos.y, pos.x] := newColor;
      Grids.GridExtensionality(Grid(), Grids.SetTile(old(Grid()), pos, newColor));
      if oldColor == BLACK {
        blackPlayer.score := blackPlayer.score - 1;
      } else if oldColor == WHITE {
        whitePlayer.score := whitePlayer.score - 1;
      }
      if newColor == BLACK {
        blackPlayer.score := blackPlayer.score + 1;
      } else if newColor == WHITE {
        whitePlayer.score := whitePlayer.score + 1;
      }
    }

    /**
     * flipInDirection: nothing unless the direction is valid; then the walk
     * flips opponent disks until it meets anything else, listing each one.
     */
    method FlipInDirection(position: Point, color: Color, xDirection: int, yDirection: int)
      returns (disksFlipped: seq<Point>)
      requires Valid() && IsDirection(xDirection, yDirection)
      modifies tile, blackPlayer`score, whitePlayer`score
      ensures Flipped(State(), disksFlipped) == Rules.FlipInDirection(old(State()), position, color, xDirection, yDirection)
    {
      var valid := ValidInDirection(position, color, xDirection, yDirection);
      if !valid {
        return [];
      }
      var opponentColor := OppositeColor(color).value;
      disksFlipped := FlipRun(Step(position, xDirection, yDirection), color, opponentColor, xDirection, yDirection);
    }

    /**
     * The loop of flipInDirection, from pos on: while pos is on the board and
     * holds an opponent disk, flip it, list it and step on.
     */
    method FlipRun(start: Point, color: Color, opponentColor: Color, xDirection: int, yDirection: int)
      returns (disksFlipped: seq<Point>)
      requires Valid() && IsDirection(xDirection, yDirection)
      modifies tile, blackPlayer`score, whitePlayer`score
      ensures Flipped(State(), disksFlipped) == Rules.FlipRun(old(State()), start, color, opponentColor, xDirection, yDirection)
    {
      disksFlipped := [];
      var pos := start;
      ghost var goal := Rules.FlipRun(State(), start, color, opponentColor, xDirection, yDirection);
      CaptureSteps.JoinNothing(goal);
      while ValidPosition(pos) && DiskColor(pos) == opponentColor
        invariant Valid()
        invariant CaptureSteps.RunRemains(goal, disksFlipped, State(), pos, color, opponentColor, xDirection, yDirection)
        decreases Span(rows, columns, pos, xDirection, yDirection)
      {
        pos, disksFlipped := FlipNext(goal, disksFlipped, pos, color, opponentColor, xDirection, yDirection);
      }
      CaptureSteps.RunStops(goal, disksFlipped, State(), pos, color, opponentColor, xDirection, yDirection);
    }

    /** One turn of that loop: the opponent disk at pos is flipped and listed, and the walk steps on. */
    method FlipNext(ghost goal: Flipped, disksFlipped: seq<Point>, pos: Point, color: Color, opponentColor: Color,
                    xDirection: int, yDirection: int)
      returns (next: Point, flipped: seq<Point>)
      requires Valid() && ValidPosition(pos) && DiskColor(pos) == opponentColor
      requires CaptureSteps.RunRemains(goal, disksFlipped, State(), pos, color, opponentColor, xDirection, yDirection)
      modifies tile, blackPlayer`score, whitePlayer`score
      ensures next == Step(pos, xDirection, yDirection) && flipped == disksFlipped + [pos]
      ensures State() == Rules.FlipDisk(old(State()), pos, color)
      ensures CaptureSteps.RunRemains(goal, flipped, State(), next, color, opponentColor, xDirection, yDirection)
      ensures Span(rows, columns, next, xDirection, yDirection) < Span(rows, columns, pos, xDirection, yDirection)
    {
      CaptureSteps.RunStep(goal, disksFlipped, State(), pos, color, opponentColor, xDirection, yDirection);
      FlipDisk(pos, color);
      flipped := disksFlipped + [pos];
      next := Step(pos, xDirection, yDirection);
    }

    /**
     * flipCaptures: nothing off the board; otherwise flipInDirection in each
     * of the eight directions, in the order of Directions, collecting the flips.
     */
    method FlipCaptures(pos: Point, color: Color) returns (disksFlipped: seq<Point>)
      requires Valid()
      modifies tile, blackPlayer`score, whitePlayer`score
      ensures Flipped(State(), disksFlipped) == Rules.FlipCaptures(old(State()), pos, color)
    {
      disksFlipped := [];
      if !ValidPosition(pos) {
        return;
      }
      DirectionsValid();
      ghost var goal := Rules.FlipCaptures(State(), pos, color);
      ghost var cur := State();
      var dirs := Directions;
      while dirs != []
        invariant Valid() && cur == State() && AllDirections(dirs)
        invariant goal == FlipDirections(cur, pos, color, disksFlipped, dirs)
        decreases |dirs|
      {
        var inDirection := FlipInDirection(pos, color, dirs[0].0, dirs[0].1);
        CaptureSteps.CapturesStep(goal, disksFlipped, cur, State(), inDirection, pos, color, dirs);
        cur := State();
        disksFlipped := disksFlipped + inDirection;
        dirs := dirs[1..];
      }
    }

    /** updateTurn. */
    method UpdateTurn()
      requires Valid()
      modifies this`playerTurn, this`turn
      ensures State() == Rules.UpdateTurn(old(State()))
    {
      if playerTurn == WHITE && |blackPlayer.validMoves| > 0 {
        playerTurn := BLACK;
      } else if playerTurn == BLACK && |whitePlayer.validMoves| > 0 {
        playerTurn := WHITE;
      }
      turn := blackPlayer.score + whitePlayer.score - 3;
    }

    /** updateGameStatus. */
    method UpdateGameStatus()
      requires Valid()
      modifies this`gameEnded, this`winner
      ensures State() == Rules.UpdateGameStatus(old(State()))
    {
      if blackPlayer.validMoves == [] && whitePlayer.validMoves == [] {
        gameEnded := true;
        if blackPlayer.score > whitePlayer.score {
          winner := Some(BLACK);
        } else if whitePlayer.score > blackPlayer.score {
          winner := Some(WHITE);
        } else {
          winner := Some(NONE);
        }
      }
    }

    /** updateBoard: both move lists, then the turn, then the game status. */
    method UpdateBoard()
      requires Valid()
      modifies blackPlayer`validMoves, whitePlayer`validMoves, this`playerTurn, this`turn, this`gameEnded, this`winner
      ensures State() == Rules.UpdateBoard(old(State()))
    {
      blackPlayer.UpdateValidMoves(this);
      whitePlayer.UpdateValidMoves(this);
      UpdateTurn();
      UpdateGameStatus();
    }

    /** placeDisk: the disk, its captures, then updateBoard. */
    method PlaceDisk(pos: Point, color: Color)
      requires Valid() && ValidPosition(pos)
      modifies tile, blackPlayer`score, whitePlayer`score, blackPlayer`validMoves, whitePlayer`validMoves
      modifies this`playerTurn, this`turn, this`gameEnded, this`winner
      ensures State() == Rules.PlaceDisk(old(State()), pos, color)
    {
      FlipDisk(pos, color);
      var captured := FlipCaptures(pos, color);
      UpdateBoard();
    }
  }
}
