/**
 * The board: the starting layout, the bounds and emptiness queries, the guarded in-place
 * `move_piece`, piece counting and the square labels used in its messages.
 */
module Board {
  import opened Wrappers
  import opened Grid

  // ---------------------------------------------------------------------------------------
  // The starting layout.

  /** The order of the pieces on both back ranks, from column 0 to column 7. */
  const BackRank: seq<Kind> := [Rook, Knight, Bishop, Queen, King, Bishop, Knight, Rook]

  /**
   * What the starting layout puts on (r, c): black's back rank on row 0 and its pawns on
   * row 1, white's pawns on row 6 and its back rank on row 7, nothing on rows 2 to 5. Every
   * piece records its own square.
   */
  function StartingCell(r: int, c: int): Option<Piece>
  {
    if !IsWithinBounds(r, c) then None
    else if r == 0 then Some(Piece(BackRank[c], Black, Square(r, c)))
    else if r == 1 then Some(Piece(Pawn, Black, Square(r, c)))
    else if r == 6 then Some(Piece(Pawn, White, Square(r, c)))
    else if r == 7 then Some(Piece(BackRank[c], White, Square(r, c)))
    else None
  }

  ghost predicate IsStartingLayout(g: Cells)
  {
    WellFormed(g) && forall r, c :: IsWithinBounds(r, c) ==> g[r][c] == StartingCell(r, c)
  }

  /** Fills an empty grid as `create_starting_board` does: four loops over the columns. */
  method CreateStartingBoard() returns (g: Cells)
    ensures IsStartingLayout(g)
  {
    g := seq(Size, _ => seq(Size, _ => None));
    for col := 0 to Size
      invariant WellFormed(g)
      invariant forall r, c :: IsWithinBounds(r, c) ==>
        g[r][c] == (if r == 0 && c < col then StartingCell(r, c) else None)
    {
      g := g[0 := g[0][col := Some(Piece(BackRank[col], Black, Square(0, col)))]];
    }
    for col := 0 to Size
      invariant WellFormed(g)
      invariant forall r, c :: IsWithinBounds(r, c) ==>
        g[r][c] == (if r == 0 || (r == 1 && c < col) then StartingCell(r, c) else None)
    {
      g := g[1 := g[1][col := Some(Piece(Pawn, Black, Square(1, col)))]];
    }
    for col := 0 to Size
      invariant WellFormed(g)
      invariant forall r, c :: IsWithinBounds(r, c) ==>
        g[r][c] == (if r <= 1 || (r == 6 && c < col) then StartingCell(r, c) else None)
    {
      g := g[6 := g[6][col := Some(Piece(Pawn, White, Square(6, col)))]];
    }
    for col := 0 to Size
      invariant WellFormed(g)
      invariant forall r, c :: IsWithinBounds(r, c) ==>
        g[r][c] == (if r <= 1 || r == 6 || (r == 7 && c < col) then StartingCell(r, c) else None)
    {
      g := g[7 := g[7][col := Some(Piece(BackRank[col], White, Square(7, col)))]];
    }
  }

  /** Where each colour's king starts: black on (0, 4), white on (7, 4). */
  function KingHome(color: Color): Square
  {
    if color == Black then Square(0, 4) else Square(7, 4)
  }

  /** The starting layout has exactly one king per colour, on its home square. */
  lemma StartingKings(g: Cells, color: Color)
    requires IsStartingLayout(g)
    ensures forall r, c :: IsWithinBounds(r, c) ==>
      (IsPieceOf(g[r][c], King, color) <==> Square(r, c) == KingHome(color))
  {
    forall r, c | IsWithinBounds(r, c)
      ensures IsPieceOf(g[r][c], King, color) <==> Square(r, c) == KingHome(color)
    {
      assert g[r][c] == StartingCell(r, c);
      assert BackRank[c] == King <==> c == 4 by {
        assert c == 0 || c == 1 || c == 2 || c == 3 || c == 4 || c == 5 || c == 6 || c == 7;
      }
    }
  }

  /** The starting layout's pieces all record their own squares. */
  lemma StartingPositionsAgree(g: Cells)
    requires IsStartingLayout(g)
    ensures PositionsAgree(g)
  {
  }

  // ---------------------------------------------------------------------------------------
  // Counting pieces.

  /** The cell holds a piece, of colour `who` when one is given. */
  predicate Tally(cell: Option<Piece>, who: Option<Color>)
  {
    cell.Some? && (who.None? || cell.value.color == who.value)
  }

  /** How many of the first n cells of a row hold a piece counted by `who`. */
  function CountCells(row: seq<Option<Piece>>, n: nat, who: Option<Color>): nat
    requires n <= |row|
  {
    if n == 0 then 0 else CountCells(row, n - 1, who) + (if Tally(row[n - 1], who) then 1 else 0)
  }

  /** How many of the first n rows' cells hold a piece counted by `who`. */
  function CountRows(g: Cells, n: nat, who: Option<Color>): nat
    requires WellFormed(g) && n <= Size
  {
    if n == 0 then 0 else CountRows(g, n - 1, who) + CountCells(g[n - 1], Size, who)
  }

  /** The number of pieces on the grid counted by `who` (every piece when `who` is None). */
  function Count(g: Cells, who: Option<Color>): nat
    requires WellFormed(g)
  {
    CountRows(g, Size, who)
  }

  /** Replacing one cell changes a row's count by what the new cell adds and the old one took away. */
  lemma {:induction false} CountCellsUpdate(row: seq<Option<Piece>>, n: nat, i: nat, x: Option<Piece>, who: Option<Color>)
    requires n <= |row| && i < |row|
    ensures CountCells(row[i := x], n, who) + (if i < n && Tally(row[i], who) then 1 else 0)
      == CountCells(row, n, who) + (if i < n && Tally(x, who) then 1 else 0)
  {
    if n > 0 {
      CountCellsUpdate(row, n - 1, i, x, who);
    }
  }

  lemma {:induction false} CountRowsUpdate(g: Cells, n: nat, r: nat, c: nat, x: Option<Piece>, who: Option<Color>)
    requires WellFormed(g) && n <= Size && IsWithinBounds(r, c)
    ensures WellFormed(g[r := g[r][c := x]])
    ensures CountRows(g[r := g[r][c := x]], n, who) + (if r < n && Tally(g[r][c], who) then 1 else 0)
      == CountRows(g, n, who) + (if r < n && Tally(x, who) then 1 else 0)
  {
    var h := g[r := g[r][c := x]];
    assert WellFormed(h);
    if n > 0 {
      CountRowsUpdate(g, n - 1, r, c, x, who);
      if n - 1 == r {
        CountCellsUpdate(g[r], Size, c, x, who);
      } else {
        assert h[n - 1] == g[n - 1];
      }
    }
  }

  /** A row whose first n cells are all counted, or none of them, counts n, or 0. */
  lemma {:induction false} CountCellsUniform(row: seq<Option<Piece>>, n: nat, who: Option<Color>)
    requires n <= |row|
    ensures (forall j :: 0 <= j < n ==> Tally(row[j], who)) ==> CountCells(row, n, who) == n
    ensures (forall j :: 0 <= j < n ==> !Tally(row[j], who)) ==> CountCells(row, n, who) == 0
  {
    if n > 0 {
      CountCellsUniform(row, n - 1, who);
    }
  }

  /** The starting layout has 16 pieces of each colour and 32 in all. */
  lemma StartingCounts(g: Cells)
    requires IsStartingLayout(g)
    ensures Count(g, Some(White)) == 16 && Count(g, Some(Black)) == 16 && Count(g, None) == 32
  {
    forall r, who | 0 <= r < Size
      ensures CountCells(g[r], Size, who) ==
        if r in {0, 1, 6, 7} && (who.None? || who.value == (if r <= 1 then Black else White)) then Size else 0
    {
      CountCellsUniform(g[r], Size, who);
      forall j | 0 <= j < Size ensures g[r][j] == StartingCell(r, j) { }
    }
    forall who ensures CountRows(g, Size, who) ==
      (if who.None? then 32 else 16)
    {
      assert CountRows(g, 1, who) == CountCells(g[0], Size, who);
      assert CountRows(g, 2, who) == CountRows(g, 1, who) + CountCells(g[1], Size, who);
      assert CountRows(g, 3, who) == CountRows(g, 2, who);
      assert CountRows(g, 4, who) == CountRows(g, 3, who);
      assert CountRows(g, 5, who) == CountRows(g, 4, who);
      assert CountRows(g, 6, who) == CountRows(g, 5, who);
      assert CountRows(g, 7, who) == CountRows(g, 6, who) + CountCells(g[6], Size, who);
      assert CountRows(g, 8, who) == CountRows(g, 7, who) + CountCells(g[7], Size, who);
    }
  }

  // ---------------------------------------------------------------------------------------
  // Moving a piece.

  /** The grid with one cell replaced. */
  function Put(g: Cells, r: int, c: int, x: Option<Piece>): (h: Cells)
    requires WellFormed(g) && IsWithinBounds(r, c)
    ensures WellFormed(h)
  {
    g[r := g[r][c := x]]
  }

  /**
   * The relocation `move_piece` performs: the piece, with its position updated, is written to
   * the destination (replacing whatever stood there), then the source is cleared.
   */
  function Relocate(g: Cells, fromRow: int, fromCol: int, toRow: int, toCol: int): (h: Cells)
    requires WellFormed(g) && IsWithinBounds(fromRow, fromCol) && IsWithinBounds(toRow, toCol)
    requires g[fromRow][fromCol].Some?
    ensures WellFormed(h)
    ensures Square(fromRow, fromCol) != Square(toRow, toCol) ==>
      && h[toRow][toCol] == Some(g[fromRow][fromCol].value.(pos := Square(toRow, toCol)))
      && h[fromRow][fromCol] == None
    ensures forall r, c ::
      IsWithinBounds(r, c) && Square(r, c) != Square(fromRow, fromCol) && Square(r, c) != Square(toRow, toCol) ==>
        h[r][c] == g[r][c]
  {
    var moved := g[fromRow][fromCol].value.(pos := Square(toRow, toCol));
    Put(Put(g, toRow, toCol, Some(moved)), fromRow, fromCol, None)
  }

  /**
   * A move between two different squares removes exactly the destination's former occupant:
   * for every colour, and for all pieces together, the count drops by one when that occupant
   * is counted and is otherwise unchanged.
   */
  lemma RelocateCount(g: Cells, fromRow: int, fromCol: int, toRow: int, toCol: int, who: Option<Color>)
    requires WellFormed(g) && IsWithinBounds(fromRow, fromCol) && IsWithinBounds(toRow, toCol)
    requires g[fromRow][fromCol].Some? && Square(fromRow, fromCol) != Square(toRow, toCol)
    ensures Count(Relocate(g, fromRow, fromCol, toRow, toCol), who) + (if Tally(g[toRow][toCol], who) then 1 else 0)
      == Count(g, who)
  {
    var moved := g[fromRow][fromCol].value.(pos := Square(toRow, toCol));
    var g1 := Put(g, toRow, toCol, Some(moved));
    CountRowsUpdate(g, Size, toRow, toCol, Some(moved), who);
    CountRowsUpdate(g1, Size, fromRow, fromCol, None, who);
    assert g1[fromRow][fromCol] == g[fromRow][fromCol];
  }

  /** A move keeps every piece's recorded square in step with the cell it stands on. */
  lemma RelocatePositions(g: Cells, fromRow: int, fromCol: int, toRow: int, toCol: int)
    requires WellFormed(g) && IsWithinBounds(fromRow, fromCol) && IsWithinBounds(toRow, toCol)
    requires g[fromRow][fromCol].Some? && Square(fromRow, fromCol) != Square(toRow, toCol)
    requires PositionsAgree(g)
    ensures PositionsAgree(Relocate(g, fromRow, fromCol, toRow, toCol))
  {
  }

  /** Why `move_piece` refused a move, or the piece it captured (if any) when it made it. */
  datatype MoveOutcome =
    | OutOfBounds
    | NoPieceAtSource
    | FriendlyCapture
    | Moved(captured: Option<Piece>)

  /** The label of a square as the move messages print it: file letter, then rank digit. */
  function SquareLabel(row: int, col: int): (name: string)
    requires IsWithinBounds(row, col)
    ensures |name| == 2 && 'a' <= name[0] <= 'h' && '1' <= name[1] <= '8'
  {
    [('a' as int + col) as char, ('0' as int + (Size - row)) as char]
  }

  /** The board object; its grid is the list of rows the source mutates in place. */
  class Board {
    var grid: Cells

    ghost predicate Valid()
      reads this
    {
      WellFormed(grid) && PositionsAgree(grid)
    }

    constructor ()
      ensures Valid() && IsStartingLayout(grid)
    {
      var g := CreateStartingBoard();
      StartingPositionsAgree(g);
      grid := g;
    }

    /** Out-of-bounds squares are never empty; in bounds, empty means no piece there. */
    function IsEmpty(row: int, col: int): (empty: bool)
      reads this
      requires WellFormed(grid)
      ensures empty ==> IsWithinBounds(row, col)
      ensures IsWithinBounds(row, col) ==> (empty <==> grid[row][col] == None)
    {
      IsWithinBounds(row, col) && grid[row][col].None?
    }

    /**
     * Refuses a move when either square is off the board, the source is empty or the
     * destination holds a piece of the mover's colour, and then changes nothing; otherwise
     * moves the piece, capturing whatever stood on the destination.
     */
    method MovePiece(fromRow: int, fromCol: int, toRow: int, toCol: int) returns (outcome: MoveOutcome)
      requires Valid()
      modifies this
      ensures Valid()
      ensures !IsWithinBounds(fromRow, fromCol) || !IsWithinBounds(toRow, toCol) ==> outcome == OutOfBounds
      ensures IsWithinBounds(fromRow, fromCol) && IsWithinBounds(toRow, toCol) ==>
        && (old(grid)[fromRow][fromCol].None? ==> outcome == NoPieceAtSource)
        && (old(grid)[fromRow][fromCol].Some? && HoldsColor(old(grid), toRow, toCol, old(grid)[fromRow][fromCol].value.color) ==>
              outcome == FriendlyCapture)
      ensures
        && IsWithinBounds(fromRow, fromCol) && IsWithinBounds(toRow, toCol)
        && old(grid)[fromRow][fromCol].Some?
        && !HoldsColor(old(grid), toRow, toCol, old(grid)[fromRow][fromCol].value.color)
        ==> outcome.Moved?
      ensures !outcome.Moved? ==> grid == old(grid)
      ensures outcome.Moved? ==>
        && IsWithinBounds(fromRow, fromCol) && IsWithinBounds(toRow, toCol)
        && old(grid)[fromRow][fromCol].Some?
        && !HoldsColor(old(grid), toRow, toCol, old(grid)[fromRow][fromCol].value.color)
        && Square(fromRow, fromCol) != Square(toRow, toCol)
        && grid == Relocate(old(grid), fromRow, fromCol, toRow, toCol)
        && outcome.captured == old(grid)[toRow][toCol]
    {
      if !IsWithinBounds(fromRow, fromCol) || !IsWithinBounds(toRow, toCol) {
        return OutOfBounds;
      }
      var piece := grid[fromRow][fromCol];
      if piece.None? {
        return NoPieceAtSource;
      }
      var target := grid[toRow][toCol];
      if target.Some? && target.value.color == piece.value.color {
        return FriendlyCapture;
      }
      RelocatePositions(grid, fromRow, fromCol, toRow, toCol);
      grid := Put(grid, toRow, toCol, Some(piece.value.(pos := Square(toRow, toCol))));
      grid := Put(grid, fromRow, fromCol, None);
      outcome := Moved(target);
    }
  }

  /**
   * After a successful move the mover's colour keeps its count, the total drops by one
   * exactly when a piece was captured, and the captured piece's colour loses that piece.
   */
  lemma MoveCounts(g: Cells, fromRow: int, fromCol: int, toRow: int, toCol: int)
    requires WellFormed(g) && IsWithinBounds(fromRow, fromCol) && IsWithinBounds(toRow, toCol)
    requires g[fromRow][fromCol].Some? && !HoldsColor(g, toRow, toCol, g[fromRow][fromCol].value.color)
    ensures var h := Relocate(g, fromRow, fromCol, toRow, toCol); var mover := g[fromRow][fromCol].value.color;
      && Count(h, Some(mover)) == Count(g, Some(mover))
      && Count(h, Some(Opponent(mover))) == Count(g, Some(Opponent(mover))) - (if g[toRow][toCol].Some? then 1 else 0)
      && Count(h, None) == Count(g, None) - (if g[toRow][toCol].Some? then 1 else 0)
  {
    var mover := g[fromRow][fromCol].value.color;
    RelocateCount(g, fromRow, fromCol, toRow, toCol, Some(mover));
    RelocateCount(g, fromRow, fromCol, toRow, toCol, Some(Opponent(mover)));
    RelocateCount(g, fromRow, fromCol, toRow, toCol, None);
    if g[toRow][toCol].Some? {
      assert g[toRow][toCol].value.color == Opponent(mover);
    }
  }
}
