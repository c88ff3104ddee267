/**
 * Reading a square typed in algebraic notation (file letter, then rank digit) as the
 * (row, col) pair the board uses.
 */
module Game {
  import opened Wrappers
  import opened Grid
  import Board

  /** The exceptions reading a square can raise. */
  datatype CoordError =
    | IndexError   // fewer than two characters
    | ValueError   // the second character is not a digit

  /** The characters read as a decimal digit. */
  predicate IsDigit(ch: char)
  {
    '0' <= ch <= '9'
  }

  /**
   * `convert_to_coords`: the column is the first character's distance from 'a' and the row
   * is 8 minus the digit in the second character. Nothing is range-checked, and characters
   * after the second are ignored.
   */
  function ConvertToCoords(pos: string): (result: Result<Square, CoordError>)
    ensures |pos| < 2 <==> result == Failure(IndexError)
    ensures result == Failure(ValueError) <==> |pos| >= 2 && !IsDigit(pos[1])
    ensures result.Success? ==> -1 <= result.value.row <= Size
  {
    if |pos| < 2 then Failure(IndexError)
    else if !IsDigit(pos[1]) then Failure(ValueError)
    else Success(Square(Size - (pos[1] as int - '0' as int), pos[0] as int - 'a' as int))
  }

  /** Only the first two characters are read. */
  lemma ConvertIgnoresTail(pos: string, tail: string)
    requires |pos| == 2
    ensures ConvertToCoords(pos + tail) == ConvertToCoords(pos)
  {
  }

  /** A square read successfully is on the board exactly when it is a letter 'a'..'h' followed by a digit '1'..'8'. */
  lemma ConvertInBounds(pos: string)
    requires |pos| >= 2
    ensures (ConvertToCoords(pos).Success? && IsWithinBounds(ConvertToCoords(pos).value.row, ConvertToCoords(pos).value.col))
      <==> ('a' <= pos[0] <= 'h' && '1' <= pos[1] <= '8')
  {
  }

  /** Reading back the label of a square on the board gives that square. */
  lemma LabelRoundTrip(row: int, col: int)
    requires IsWithinBounds(row, col)
    ensures ConvertToCoords(Board.SquareLabel(row, col)) == Success(Square(row, col))
  {
  }

  /** Labelling the square read from a two-character name on the board gives the name back. */
  lemma CoordsRoundTrip(pos: string)
    requires |pos| == 2 && 'a' <= pos[0] <= 'h' && '1' <= pos[1] <= '8'
    ensures ConvertToCoords(pos).Success?
    ensures IsWithinBounds(ConvertToCoords(pos).value.row, ConvertToCoords(pos).value.col)
    ensures Board.SquareLabel(ConvertToCoords(pos).value.row, ConvertToCoords(pos).value.col) == pos
  {
    var sq := ConvertToCoords(pos).value;
    var name := Board.SquareLabel(sq.row, sq.col);
    assert name[0] == pos[0] && name[1] == pos[1];
  }
}
