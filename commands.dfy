/**
 * Command.java and CommandManager.java: a move that can be executed and
 * undone on a Board, and the undo and redo stacks of executed moves.
 */
module Commands {
  import opened Colors
  import opened Geometry
  import opened Rules
  import opened GameBoard
  import Grids
  import FlipProperties
  import History

  /**
   * A move that undo can take back on a board with its players: the
   * destination and every captured point lie on the board, and a NONE disk
   * (which has no opposite colour to flip back to) has captured nothing.
   */
  predicate Undoable(board: Board, destination: Point, color: Color, captured: seq<Point>) {
    board.ValidPosition(destination) &&
    (forall q :: q in captured ==> board.ValidPosition(q)) &&
    (color != NONE || |captured| == 0)
  }

  /** A move: a disk of `color` for `destination` on `board`, and the points its last execute captured. */
  class Command {
    const board: Board
    const color: Color
    const destination: Point
    var capturedPoints: seq<Point>

    /** A new command has captured nothing yet; the flips are found when it is executed. */
    constructor (board: Board, color: Color, position: Point)
      ensures this.board == board && this.color == color && destination == position && capturedPoints == []
    {
      this.board := board;
      this.color := color;
      destination := position;
      capturedPoints := [];
    }

    /** undo can run on this command: see Undoable. */
    predicate Ready()
      reads this`capturedPoints
    {
      Undoable(board, destination, color, capturedPoints)
    }

    /** execute: the disk, its captures (kept for undo), then updateBoard. */
    method Execute()
      requires board.Valid() && board.ValidPosition(destination)
      modifies this`capturedPoints, board.tile, board.blackPlayer`score, board.whitePlayer`score
      modifies board.blackPlayer`validMoves, board.whitePlayer`validMoves
      modifies board`playerTurn, board`turn, board`gameEnded, board`winner
      ensures Ready()
      ensures board.State() == PlaceDisk(old(board.State()), destination, color)
      ensures capturedPoints == Captures(old(board.State()), destination, color)
    {
      ghost var s := board.State();
      board.FlipDisk(destination, color);
      capturedPoints := board.FlipCaptures(destination, color);
      board.UpdateBoard();
      FlipProperties.CapturesOnBoard(s, destination, color);
    }

    /** undo: empty the destination, flip every captured point back, then updateBoard. */
    method Undo()
      requires board.Valid() && Ready()
      modifies board.tile, board.blackPlayer`score, board.whitePlayer`score
      modifies board.blackPlayer`validMoves, board.whitePlayer`validMoves
      modifies board`playerTurn, board`turn, board`gameEnded, board`winner
      ensures Ready()
      ensures board.State() == UndoMove(old(board.State()), color, destination, capturedPoints)
    {
      var oppositeColor := OppositeColor(color);
      ghost var opponent := if color == NONE then NONE else oppositeColor.value;
      board.RemoveDisk(destination);
      ghost var goal := FlipAll(board.State(), capturedPoints, opponent);
      var i := 0;
      while i < |capturedPoints|
        invariant 0 <= i <= |capturedPoints| && board.Valid()
        invariant forall q :: q in capturedPoints[i..] ==> board.ValidPosition(q)
        invariant goal == FlipAll(board.State(), capturedPoints[i..], opponent)
      {
        assert capturedPoints[i..][1..] == capturedPoints[i + 1..];
        assert capturedPoints[i] in capturedPoints[i..];
        board.FlipDisk(capturedPoints[i], oppositeColor.value);
        i := i + 1;
      }
      board.UpdateBoard();
    }
  }

  /** The undo and redo stacks; the top of a stack is the last element of its sequence. */
  class CommandManager {
    var undos: seq<Command>
    var redos: seq<Command>
    /** The board every stored command moves on (CommandManager.java itself holds no board). */
    ghost const board: Board

    constructor (ghost board: Board)
      ensures undos == [] && redos == [] && this.board == board
    {
      undos := [];
      redos := [];
      this.board := board;
    }

    /** The two stacks as a value. */
    function Stacks(): History.Stacks<Command>
      reads this
    {
      History.Stacks(undos, redos)
    }

    /** Every stored command moves on the manager's board and can be undone. */
    ghost predicate Valid()
      reads this, undos, redos, board`blackPlayer, board`whitePlayer
    {
      board.Valid() &&
      (forall c :: c in undos ==> c.board == board && Undoable(board, c.destination, c.color, c.capturedPoints)) &&
      (forall c :: c in redos ==> c.board == board && Undoable(board, c.destination, c.color, c.capturedPoints))
    }

    /** executeCommand: execute, push onto undos, clear redos. */
    method ExecuteCommand(command: Command)
      requires Valid() && command.board == board && board.ValidPosition(command.destination)
      modifies this`undos, this`redos, command`capturedPoints, board.tile
      modifies board.blackPlayer`score, board.whitePlayer`score, board.blackPlayer`validMoves, board.whitePlayer`validMoves
      modifies board`playerTurn, board`turn, board`gameEnded, board`winner
      ensures Valid()
      ensures Stacks() == History.Execute(old(Stacks()), command)
      ensures board.State() == PlaceDisk(old(board.State()), command.destination, command.color)
      ensures command.capturedPoints == Captures(old(board.State()), command.destination, command.color)
    {
      command.Execute();
      undos := undos + [command];
      redos := [];
    }

    /** undoAvailable. */
    function UndoAvailable(): (b: bool)
      reads this
      ensures b <==> History.UndoAvailable(Stacks())
    {
      |undos| != 0
    }

    /** redoAvailable. */
    function RedoAvailable(): (b: bool)
      reads this
      ensures b <==> History.RedoAvailable(Stacks())
    {
      |redos| != 0
    }

    /** undo: when available, pop the last command, undo it and push it onto redos. */
    method Undo()
      requires Valid()
      modifies this`undos, this`redos, board.tile
      modifies board.blackPlayer`score, board.whitePlayer`score, board.blackPlayer`validMoves, board.whitePlayer`validMoves
      modifies board`playerTurn, board`turn, board`gameEnded, board`winner
      ensures Valid()
      ensures Stacks() == History.Undo(old(Stacks()))
      ensures old(undos) == [] ==> board.State() == old(board.State())
      ensures old(undos) != [] ==>
        var c := old(undos[|undos| - 1]);
        old(c.Ready()) && board.State() == UndoMove(old(board.State()), c.color, c.destination, c.capturedPoints)
    {
      if UndoAvailable() {
        var command := undos[|undos| - 1];
        undos := undos[..|undos| - 1];
        command.Undo();
        redos := redos + [command];
      }
    }

    /** redo: when available, pop the last undone command, execute it again and push it onto undos. */
    method Redo()
      requires Valid()
      modifies this`undos, this`redos, (if redos == [] then {} else {redos[|redos| - 1]})`capturedPoints, board.tile
      modifies board.blackPlayer`score, board.whitePlayer`score, board.blackPlayer`validMoves, board.whitePlayer`validMoves
      modifies board`playerTurn, board`turn, board`gameEnded, board`winner
      ensures Valid()
      ensures Stacks() == History.Redo(old(Stacks()))
      ensures old(redos) == [] ==> board.State() == old(board.State())
      ensures old(redos) != [] ==>
        var c := old(redos[|redos| - 1]);
        old(c.Ready()) && board.State() == PlaceDisk(old(board.State()), c.destination, c.color) &&
        c.capturedPoints == Captures(old(board.State()), c.destination, c.color)
    {
      if RedoAvailable() {
        var command := redos[|redos| - 1];
        redos := redos[..|redos| - 1];
        command.Execute();
        undos := undos + [command];
      }
    }
  }
}
