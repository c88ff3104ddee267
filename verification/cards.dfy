/**
 * Whether each card may be played this turn: read-only searches over the grid, for the
 * player whose turn it is.
 */
module Cards {
  import opened Wrappers
  import opened Grid
  import Pieces
  import Board

  datatype Card = BaseCard | PawnBoostCard | BishopGhostCard | DestroyOpponentPieceCard | KnightmareLoopCard

  /** What a card's search looks for in a cell. */
  datatype Goal =
    | HomePawn(color: Color)         // a pawn of this colour
    | Destroyable(opponent: Color)   // a piece of this colour other than a king or a queen
    | MobileKnight(color: Color)     // a knight of this colour with at least one move
    | OwnKnight(color: Color)        // a knight of this colour, whether it can move or not

  /** The piece on (r, c), if any, is one the search is looking for. */
  predicate Hit(g: Cells, goal: Goal, r: int, c: int)
    requires WellFormed(g) && IsWithinBounds(r, c)
  {
    match goal
    case HomePawn(color) => IsPieceOf(g[r][c], Pawn, color)
    case Destroyable(opponent) =>
      g[r][c].Some? && g[r][c].value.color == opponent && g[r][c].value.kind != King && g[r][c].value.kind != Queen
    case MobileKnight(color) => IsPieceOf(g[r][c], Knight, color) && |Pieces.KnightTargets(g, color, r, c)| > 0
    case OwnKnight(color) => IsPieceOf(g[r][c], Knight, color)
  }

  /** Searches row `row` from column `col` onwards, stopping at the first hit. */
  function ScanRow(g: Cells, goal: Goal, row: int, col: nat): (found: bool)
    requires WellFormed(g) && 0 <= row < Size && col <= Size
    ensures found <==> exists c :: col <= c < Size && Hit(g, goal, row, c)
    decreases Size - col
  {
    if col == Size then false
    else Hit(g, goal, row, col) || ScanRow(g, goal, row, col + 1)
  }

  /** Searches rows `row` to 7, each from column 0, stopping at the first hit. */
  function ScanBoard(g: Cells, goal: Goal, row: nat): (found: bool)
    requires WellFormed(g) && row <= Size
    ensures found <==> exists r, c :: row <= r < Size && 0 <= c < Size && Hit(g, goal, r, c)
    decreases Size - row
  {
    if row == Size then false
    else ScanRow(g, goal, row, 0) || ScanBoard(g, goal, row + 1)
  }

  /** The whole-board search for a piece Destroy Opponent Piece may remove, spelled out. */
  lemma DestroyableScan(g: Cells, opponent: Color)
    requires WellFormed(g)
    ensures ScanBoard(g, Destroyable(opponent), 0) <==>
      exists r, c :: IsWithinBounds(r, c) && g[r][c].Some? && g[r][c].value.color == opponent
                     && g[r][c].value.kind != King && g[r][c].value.kind != Queen
  {
    if ScanBoard(g, Destroyable(opponent), 0) {
      var r, c :| 0 <= r < Size && 0 <= c < Size && Hit(g, Destroyable(opponent), r, c);
      assert IsWithinBounds(r, c) && g[r][c].Some? && g[r][c].value.color == opponent;
    }
    if exists r, c :: IsWithinBounds(r, c) && g[r][c].Some? && g[r][c].value.color == opponent
                      && g[r][c].value.kind != King && g[r][c].value.kind != Queen {
      var r, c :| IsWithinBounds(r, c) && g[r][c].Some? && g[r][c].value.color == opponent
                  && g[r][c].value.kind != King && g[r][c].value.kind != Queen;
      assert Hit(g, Destroyable(opponent), r, c);
    }
  }

  /** The whole-board search for a knight of the given colour that has a move, spelled out. */
  lemma MobileKnightScan(g: Cells, color: Color)
    requires WellFormed(g)
    ensures ScanBoard(g, MobileKnight(color), 0) <==>
      exists r, c :: IsWithinBounds(r, c) && IsPieceOf(g[r][c], Knight, color) && |Pieces.KnightTargets(g, color, r, c)| > 0
  {
    if ScanBoard(g, MobileKnight(color), 0) {
      var r, c :| 0 <= r < Size && 0 <= c < Size && Hit(g, MobileKnight(color), r, c);
      assert IsWithinBounds(r, c) && IsPieceOf(g[r][c], Knight, color);
    }
    if exists r, c :: IsWithinBounds(r, c) && IsPieceOf(g[r][c], Knight, color) && |Pieces.KnightTargets(g, color, r, c)| > 0 {
      var r, c :| IsWithinBounds(r, c) && IsPieceOf(g[r][c], Knight, color) && |Pieces.KnightTargets(g, color, r, c)| > 0;
      assert Hit(g, MobileKnight(color), r, c);
    }
  }

  /** The whole-board search for any knight of the given colour, spelled out. */
  lemma OwnKnightScan(g: Cells, color: Color)
    requires WellFormed(g)
    ensures ScanBoard(g, OwnKnight(color), 0) <==> exists r, c :: IsWithinBounds(r, c) && IsPieceOf(g[r][c], Knight, color)
  {
    if ScanBoard(g, OwnKnight(color), 0) {
      var r, c :| 0 <= r < Size && 0 <= c < Size && Hit(g, OwnKnight(color), r, c);
      assert IsWithinBounds(r, c) && IsPieceOf(g[r][c], Knight, color);
    }
    if exists r, c :: IsWithinBounds(r, c) && IsPieceOf(g[r][c], Knight, color) {
      var r, c :| IsWithinBounds(r, c) && IsPieceOf(g[r][c], Knight, color);
      assert Hit(g, OwnKnight(color), r, c);
    }
  }

  /**
   * `can_play` of each card. Being in check is decided by code outside this model, so it is
   * passed in as `inCheck`.
   */
  function CanPlay(card: Card, g: Cells, turn: Color, inCheck: (Cells, Color) -> bool): (ok: bool)
    requires WellFormed(g)
    ensures card == BaseCard ==> ok
    ensures card == PawnBoostCard ==>
      (ok <==> exists c :: 0 <= c < Size && IsPieceOf(g[Pieces.StartRow(turn)][c], Pawn, turn))
    ensures card == BishopGhostCard ==> (ok <==> !inCheck(g, turn))
    ensures card == DestroyOpponentPieceCard ==>
      (ok <==> exists r, c :: IsWithinBounds(r, c) && g[r][c].Some? && g[r][c].value.color == Opponent(turn)
                              && g[r][c].value.kind != King && g[r][c].value.kind != Queen)
    ensures card == KnightmareLoopCard ==>
      (ok <==> exists r, c :: IsWithinBounds(r, c) && IsPieceOf(g[r][c], Knight, turn)
                              && |Pieces.KnightTargets(g, turn, r, c)| > 0)
  {
    match card
    case BaseCard => true
    case PawnBoostCard => ScanRow(g, HomePawn(turn), Pieces.StartRow(turn), 0)
    case BishopGhostCard => !inCheck(g, turn)
    case DestroyOpponentPieceCard =>
      DestroyableScan(g, Opponent(turn));
      ScanBoard(g, Destroyable(Opponent(turn)), 0)
    case KnightmareLoopCard =>
      MobileKnightScan(g, turn);
      ScanBoard(g, MobileKnight(turn), 0)
  }

  /** Pawn Boost looks at the player's start row only: nothing ahead of the pawns matters. */
  lemma PawnBoostReadsStartRow(g: Cells, h: Cells, turn: Color, inCheck: (Cells, Color) -> bool)
    requires WellFormed(g) && WellFormed(h)
    requires g[Pieces.StartRow(turn)] == h[Pieces.StartRow(turn)]
    ensures CanPlay(PawnBoostCard, g, turn, inCheck) == CanPlay(PawnBoostCard, h, turn, inCheck)
  {
  }

  /**
   * The row of each colour's b-file knight in the starting layout, and the row of the
   * a-file square it can jump to.
   */
  function KnightAndJumpRows(color: Color): (int, int)
  {
    if color == White then (7, 5) else (0, 2)
  }

  /** In the starting layout the b-file knight of either colour can jump to the a-file. */
  lemma StartingKnightCanMove(g: Cells, color: Color)
    requires Board.IsStartingLayout(g)
    ensures IsPieceOf(g[KnightAndJumpRows(color).0][1], Knight, color)
    ensures |Pieces.KnightTargets(g, color, KnightAndJumpRows(color).0, 1)| > 0
  {
    var (kr, jr) := KnightAndJumpRows(color);
    assert g[kr][1] == Board.StartingCell(kr, 1);
    assert g[jr][0] == Board.StartingCell(jr, 0);
    Pieces.KnightTargetsExactly(g, color, kr, 1, Square(jr, 0));
  }

  /** At the start of the game Pawn Boost, Destroy Opponent Piece and Knightmare Loop are all playable. */
  lemma StartingPlayable(g: Cells, turn: Color, inCheck: (Cells, Color) -> bool)
    requires Board.IsStartingLayout(g)
    ensures CanPlay(PawnBoostCard, g, turn, inCheck)
    ensures CanPlay(DestroyOpponentPieceCard, g, turn, inCheck)
    ensures CanPlay(KnightmareLoopCard, g, turn, inCheck)
  {
    var home := Pieces.StartRow(turn);
    assert g[home][0] == Board.StartingCell(home, 0);
    assert IsPieceOf(g[home][0], Pawn, turn);
    var back := if Opponent(turn) == Black then 0 else 7;
    assert g[back][0] == Board.StartingCell(back, 0);
    assert IsWithinBounds(back, 0) && g[back][0].Some? && g[back][0].value.color == Opponent(turn)
      && g[back][0].value.kind != King && g[back][0].value.kind != Queen;
    StartingKnightCanMove(g, turn);
    var kr := KnightAndJumpRows(turn).0;
    assert IsWithinBounds(kr, 1) && IsPieceOf(g[kr][1], Knight, turn) && |Pieces.KnightTargets(g, turn, kr, 1)| > 0;
  }

  // ---------------------------------------------------------------------------------------
  // Knightmare Loop as the code stands: it calls the knight's move generation with one
  // argument too many, so the call raises instead of answering.

  /** The exception the mis-called move generation raises. */
  datatype Raised = TypeError

  /**
   * `KnightmareLoopCard.can_play` as written: the search raises at the first knight of the
   * player's colour, and answers false only when the player has no knight at all.
   */
  function KnightmareAsWritten(g: Cells, turn: Color): (r: Result<bool, Raised>)
    requires WellFormed(g)
    ensures r.Failure? <==> exists row, col :: IsWithinBounds(row, col) && IsPieceOf(g[row][col], Knight, turn)
    ensures r.Success? ==> !r.value
  {
    OwnKnightScan(g, turn);
    if ScanBoard(g, OwnKnight(turn), 0) then Failure(TypeError) else Success(false)
  }

  /**
   * On the starting board the card as written raises for either player, while the
   * corrected predicate allows it.
   */
  lemma KnightmareAsWrittenRaisesAtStart(g: Cells, turn: Color, inCheck: (Cells, Color) -> bool)
    requires Board.IsStartingLayout(g)
    ensures KnightmareAsWritten(g, turn) == Failure(TypeError)
    ensures CanPlay(KnightmareLoopCard, g, turn, inCheck)
  {
    StartingPlayable(g, turn, inCheck);
    StartingKnightCanMove(g, turn);
    var kr := KnightAndJumpRows(turn).0;
    assert IsWithinBounds(kr, 1) && IsPieceOf(g[kr][1], Knight, turn);
  }
}
