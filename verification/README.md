# Chess rules core with house-rule cards

A Dafny model of the rules core of a small two-player chess program with "power cards":

- **Move generation** (`pieces.py`): each piece kind lists the squares it may move to on the 8x8 grid. King and Knight use fixed offsets and may not land on their own colour. Rook and Bishop walk along rays until they are blocked. Queen takes the rook's list followed by the bishop's. Pawn moves one step forward, two steps from its start row, and captures diagonally.
- **The board** (`board.py`): a class holding the grid of optional pieces. It builds the starting layout, answers bounds and emptiness queries, and has a guarded in-place `move_piece`. The model also covers the square labels used in move messages.
- **Card eligibility** (`card.py`): whether each of the five cards may be played by the side to move.
- **Reading a square** (`game.py`, `convert_to_coords`): turns an algebraic name such as `e2` into a (row, col) pair. It is the inverse of the square labels.

Layout, one module per file:

- `wrappers.dfy`: `Option` and `Result`.
- `grid.dfy`: colours, kinds, squares, pieces, the grid and its bounds.
- `pieces.dfy`: move generation.
  - Each generator is a method with the source's loops. It is proved equal to a specification function (`Leaps`, `Slide`/`Rays`, `PawnTargets`).
  - Lemmas characterise those functions geometrically.
- `board.dfy`: the starting layout, counting, `Relocate`, and the `Board` class.
- `cards.dfy`: the `can_play` predicates, as recursive searches.
- `game.dfy`: `convert_to_coords` and its round trips with the labels.

Pieces are values (kind, colour, square). The board's grid is a `seq<seq<Option<Piece>>>` field that `MovePiece` reassigns. Row 0 is black's back rank and row 7 is white's. White pawns move toward row 0.

Points where the modelled code is inconsistent with itself, or could be read more than one way, and what the model does:

- The `Piece` constructor takes only a colour (pieces.py:2). The board passes a colour and a square (board.py:17), and `move_piece` assigns `piece.position` (board.py:64). The model gives every piece a kind, a colour and a square, which is the layout the board code evidently intends. As written, the board cannot be built; see "Left out".
- `get_valid_moves` takes `(board, row, col)` (pieces.py:5), and the model uses that signature. card.py:59 passes one argument too many; see "Findings".
- Pawn Boost only looks for a pawn of the mover's colour on its start row (card.py:14-21). The squares ahead of that pawn are not examined (`Cards.PawnBoostReadsStartRow`).
- Move lists are ordered lists. The model keeps the lists and their order.
- `move_piece` prints a message and returns nothing (board.py:48-70). `MovePiece` returns a `MoveOutcome` that carries the same information as the message.

## Model

| member | source | states |
|---|---|---|
| Pieces.LeapsMember | pieces.py:14-19 | a square is listed by an offset walk iff its offset from the origin is one of the offsets, it is on the board and it is empty or holds the other colour |
| Pieces.LeapMoves | pieces.py:14-19 | the offset loop builds exactly the offset-walk list, in offset order |
| Pieces.KingTargetsExactly | pieces.py:9-20 | a square is a king move iff it is one of the eight neighbours, on the board and not occupied by the king's own colour |
| Pieces.KingMoves | pieces.py:9-20 | the king's loop returns its list, and every listed square is an on-board neighbour not held by its own colour (and every such neighbour is listed) |
| Pieces.KnightTargetsExactly | pieces.py:64-73 | a square is a knight move iff it is a (1,2)/(2,1) jump away, on the board and not occupied by the knight's own colour |
| Pieces.KnightMoves | pieces.py:64-73 | the knight's loop returns its list, and membership is exactly the on-board jumps not onto its own colour |
| Pieces.SlideAlongRay | pieces.py:31-42 | the k-th square listed along a ray is k steps from the ray's first square |
| Pieces.SlideCells | pieces.py:32-40 | every square a ray lists is on the board; every one but the last is empty; none holds the mover's colour |
| Pieces.SlideStops | pieces.py:32-42 | a ray that lists nothing or ends on an empty square stopped because the next square is off the board or holds the mover's colour |
| Pieces.SlideMember | pieces.py:31-42 | every square on a ray is on the board, open to the mover, and some whole number of steps along the ray |
| Pieces.WalkRay | pieces.py:31-42 | the inner `while` walk lists exactly the ray's squares: empty ones, then at most one enemy square, then stops |
| Pieces.RaysMember | pieces.py:30-42 | every square listed over several rays is on the board, open to the mover and k >= 1 steps along one of the directions, so never the origin |
| Pieces.SlideMoves | pieces.py:29-43 | the direction loop returns the concatenation of the rays in direction order |
| Pieces.RookTargetsGeometry | pieces.py:28-43 | every rook destination is on the board, open to the mover and shares exactly one of the origin's row and column |
| Pieces.RookMoves | pieces.py:28-43 | the rook's method returns its list, and every square in it is on the board, open and on the origin's row or column but not the origin |
| Pieces.BishopTargetsGeometry | pieces.py:46-61 | every bishop destination is on the board, open to the mover and on a diagonal through the origin (equal non-zero row and column distance) |
| Pieces.BishopMoves | pieces.py:46-61 | the bishop's method returns its list, and every square in it is on the board, open and on a diagonal through the origin |
| Pieces.QueenMoves | pieces.py:23-25 | the queen's list is the rook's list followed by the bishop's list from the same square; every square in it is on a line or diagonal through the origin |
| Pieces.PawnCapturesMember | pieces.py:87-92 | a square is a pawn capture iff it is one step forward and one column aside, on the board and held by the other colour |
| Pieces.PawnTargetsExactly | pieces.py:76-93 | a square is a pawn move iff it is the empty square one step forward; or it is two steps forward from the start row with both squares empty; or it is a diagonal capture of an enemy piece |
| Pieces.PawnCaptureMoves | pieces.py:87-92 | the capture loop over the two sides returns exactly the capture list |
| Pieces.PawnMoves | pieces.py:76-93 | the pawn's method returns its list, and membership is exactly the three ways a pawn may move; white moves toward row 0 from row 6, black toward row 7 from row 1 |
| Pieces.TargetsSafe | pieces.py:8-93 | whatever the kind, every listed destination is on the board, not held by the mover's colour, and not the origin |
| Pieces.ValidMoves | pieces.py:8-93 | dispatching on the kind returns that kind's list, whose squares are all on the board, open to the mover and not the origin |
| Board.CreateStartingBoard | board.py:9-27 | the four filling loops produce exactly the starting layout: black back rank R,N,B,Q,K,B,N,R on row 0, black pawns on row 1, white pawns on row 6, white back rank on row 7, rows 2 to 5 empty |
| Board.StartingKings | board.py:13-25 | the starting layout has exactly one king of each colour, black's on (0,4) and white's on (7,4) |
| Board.StartingCounts | board.py:16-25 | the starting layout has 16 pieces of each colour and 32 in all |
| Board.StartingPositionsAgree | board.py:16-25 | every piece of the starting layout records the square it stands on |
| Board.Relocate | board.py:61-64 | after relocation the destination holds the moved piece with its position set to the destination, the source is empty, and every other square is unchanged |
| Board.RelocatePositions | board.py:61-64 | relocation keeps every piece's recorded square equal to the square it stands on |
| Board.RelocateCount | board.py:56-63 | for any colour, and for all pieces, relocation removes exactly the destination's former occupant from the count |
| Board.MoveCounts | board.py:56-63 | after an accepted move the mover's count is unchanged; the opponent's count and the total drop by one exactly when a piece was captured |
| Board.SquareLabel | board.py:66 | a square's label is two characters: a file letter 'a' to 'h' (for the column) and a rank digit '1' to '8' (for 8 minus the row) |
| Board.Board.constructor | board.py:6-7 | a new board holds the starting layout |
| Grid.WithinBoundsIndexes | board.py:29-30 | a square is on the board iff 0 <= row < 8 and 0 <= col < 8, which are exactly the indices of the grid's cells |
| Board.Board.IsEmpty | board.py:32-33 | a square is reported empty only if it is on the board, and an on-board square is empty iff no piece stands there |
| Board.Board.MovePiece | board.py:46-64 | off-board squares, an empty source or a same-colour destination are refused and leave the grid untouched; a move that passes all three checks is always made: the grid becomes the relocated grid, the captured piece is the destination's former occupant, and positions stay consistent |
| Grid.Opponent | card.py:38 | the opponent is the other colour |
| Cards.ScanRow | card.py:17-21 | the row search succeeds iff some column from the starting one onward holds what is sought |
| Cards.ScanBoard | card.py:39-45 | the board search succeeds iff some square from the starting row onward holds what is sought |
| Cards.CanPlay | card.py:5-62 | Base is always playable. Pawn Boost needs a pawn of the mover's colour on its start row (6 for white, 1 for black). Bishop Ghost is playable exactly when the mover is not in check. Destroy needs an opponent piece other than a king or queen. Knightmare needs a knight of the mover's colour with a non-empty knight move list |
| Cards.PawnBoostReadsStartRow | card.py:14-21 | Pawn Boost depends on the mover's start row only, so squares ahead of the pawns do not matter |
| Cards.StartingPlayable | card.py:12-62 | on the starting board Pawn Boost, Destroy Opponent Piece and Knightmare Loop are playable for either side |
| Cards.StartingKnightCanMove | pieces.py:64-73 | in the starting layout each side's b-file knight has a move |
| Cards.KnightmareAsWritten | card.py:51-62 | the card as written raises exactly when the mover owns a knight and otherwise answers false |
| Cards.KnightmareAsWrittenRaisesAtStart | card.py:59 | on the starting board the card as written raises, while the intended predicate allows it |
| Game.ConvertToCoords | game.py:58-61 | fewer than two characters is an index error; a second character that is not a digit is a value error; otherwise the row lies between -1 and 8 |
| Game.ConvertIgnoresTail | game.py:59-60 | characters after the second do not affect the result |
| Game.ConvertInBounds | game.py:58-61 | a name is read as an on-board square iff it starts with a letter 'a' to 'h' followed by a digit '1' to '8' |
| Game.LabelRoundTrip | board.py:66 | reading back the label of any on-board square gives that square |
| Game.CoordsRoundTrip | game.py:58-61 | labelling the square read from a two-character on-board name gives the name back |

## Left out

- Printing: `Board.display` (board.py:35-44) and the messages of `move_piece` (board.py:48, 53, 58, 66-70). `MovePiece` returns a `MoveOutcome` instead, and `SquareLabel` models the label text.
- The console loop `ChessGame.start`, the graphical front end and the entry point. These are I/O only.
- Check, checkmate and stalemate. `is_in_check` is called but defined nowhere in the modelled code. Bishop Ghost receives it as a parameter `inCheck`.
- The card effects themselves: the longer pawn move, bishop pass-through, the knight's double move and piece destruction. The code defines only the eligibility tests, and move generation never consults a card.
- Castling, en passant and promotion. They are absent from the code.
- Colours are an enumeration. In the code, any colour string other than `'white'` moves like black (pieces.py:78-79, card.py:16), and other strings never occur.
- Piece identity and aliasing. Pieces are values here: `MovePiece` stores a copy of the piece with its new square rather than mutating a shared object.
- Board.CreateStartingBoard: the code as written raises `TypeError` at board.py:17, because `Piece.__init__` (pieces.py:2) takes only a colour and no piece class overrides it, so `Board()` never produces a board. The model builds the layout the board code evidently intends.
- Pieces.PawnMoves: requires a column from 0 to 7. With another column, Python would index the row with a wrapped negative index or raise, and that behaviour is not modelled. Callers only pass on-board squares.
- Pieces.Targets: requires a column from 0 to 7 for pawns only, for the same reason.
- Game.ConvertToCoords: only the ASCII digits count as digits. Python's `int` also accepts other Unicode decimal digits. Its contract states the error cases and the row range; the exact square for names off the board is given only by its definition.

## Findings

| source | as written | input that shows it | evidently intended | confidence | as-written member | corrected member |
|---|---|---|---|---|---|---|
| card.py:59 | `KnightmareLoopCard.can_play` calls `get_valid_moves(board, row, col, gui)`, but every `get_valid_moves` takes `(board, row, col)` (pieces.py:64), so the call raises `TypeError` as soon as the search reaches a knight of the mover's colour | the starting board, either side to move | playable iff the mover has a knight whose move list is non-empty | high; not executed | Cards.KnightmareAsWritten, Cards.KnightmareAsWrittenRaisesAtStart | Cards.CanPlay |
