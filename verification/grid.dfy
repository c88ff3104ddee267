/**
 * The data model shared by the piece classes and the board: colours, piece kinds,
 * squares, pieces and the 8x8 grid of optional pieces (the board's `board` list of lists).
 */
module Grid {
  import opened Wrappers

  /** The board is 8 squares on a side. */
  const Size := 8

  datatype Color = White | Black

  /** The other side: black for white and white for black. */
  function Opponent(c: Color): (o: Color)
    ensures o != c
  {
    if c == White then Black else White
  }

  /** The closed set of piece classes; dispatch is by pattern matching on it. */
  datatype Kind = Pawn | Knight | Bishop | Rook | Queen | King

  /** A (row, col) pair; row 0 is black's back rank, row 7 white's. */
  datatype Square = Square(row: int, col: int)

  /** A piece knows its kind, its colour and the square it stands on. */
  datatype Piece = Piece(kind: Kind, color: Color, pos: Square)

  /** The grid of cells, indexed first by row and then by column. */
  type Cells = seq<seq<Option<Piece>>>

  /** The grid is 8 rows of 8 cells each. */
  predicate WellFormed(g: Cells)
  {
    |g| == Size && forall r :: 0 <= r < Size ==> |g[r]| == Size
  }

  /** The bounds test of the board (also written inline by every piece's move generation). */
  predicate IsWithinBounds(row: int, col: int)
  {
    0 <= row < Size && 0 <= col < Size
  }

  /** A square is within bounds exactly when it names a cell of the grid. */
  lemma WithinBoundsIndexes(g: Cells, row: int, col: int)
    requires WellFormed(g)
    ensures IsWithinBounds(row, col) <==> 0 <= row < |g| && 0 <= col < |g[row]|
  {
  }

  /** The cell holds a piece of the given colour. */
  predicate HoldsColor(g: Cells, row: int, col: int, color: Color)
    requires WellFormed(g) && IsWithinBounds(row, col)
  {
    g[row][col].Some? && g[row][col].value.color == color
  }

  /** The cell holds a piece of the given kind and colour. */
  predicate IsPieceOf(cell: Option<Piece>, kind: Kind, color: Color)
  {
    cell.Some? && cell.value.kind == kind && cell.value.color == color
  }

  /** Every piece on the grid records the square it stands on. */
  ghost predicate PositionsAgree(g: Cells)
    requires WellFormed(g)
  {
    forall r, c :: IsWithinBounds(r, c) && g[r][c].Some? ==> g[r][c].value.pos == Square(r, c)
  }
}
