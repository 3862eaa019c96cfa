/** Disk colours (Color.java, and the colour a Disk of Disk.java carries). */
module Colors {
  import opened Wrappers

  /** NONE marks an empty tile. */
  datatype Color = WHITE | BLACK | NONE

  /**
   * getOppositeColor (Functions.java and its copy in Board.java): BLACK and WHITE
   * swap, and NONE has no opposite (the Java method returns null).
   */
  function OppositeColor(color: Color): (r: Option<Color>)
    ensures color == BLACK <==> r == Some(WHITE)
    ensures color == WHITE <==> r == Some(BLACK)
    ensures color == NONE <==> r.None?
  {
    match color
    case BLACK => Some(WHITE)
    case WHITE => Some(BLACK)
    case NONE => None
  }

  /** Taking the opposite twice gives back the colour of a player. */
  lemma OppositeInvolution(color: Color)
    requires color != NONE
    ensures OppositeColor(color).Some?
    ensures OppositeColor(color).value != color && OppositeColor(color).value != NONE
    ensures OppositeColor(OppositeColor(color).value) == Some(color)
  {
  }
}
