/**
 * Pseudo-legal move generation for the six piece kinds (the `get_valid_moves` of King,
 * Queen, Rook, Bishop, Knight and Pawn). Each generator is a method that builds its list of
 * destinations step by step, as the source does, and is proved equal to a specification
 * function; the lemmas state what those functions promise.
 */
module Pieces {
  import opened Grid

  /** A piece of `color` may land on this cell: it is empty or holds the other colour. */
  predicate Open(g: Cells, color: Color, row: int, col: int)
    requires WellFormed(g) && IsWithinBounds(row, col)
  {
    !HoldsColor(g, row, col, color)
  }

  /** The cell holds a piece of the side opposing `color`. */
  predicate Enemy(g: Cells, color: Color, row: int, col: int)
    requires WellFormed(g) && IsWithinBounds(row, col)
  {
    g[row][col].Some? && g[row][col].value.color != color
  }

  function Abs(x: int): nat
  {
    if x < 0 then -x else x
  }

  // ---------------------------------------------------------------------------------------
  // King and Knight: a fixed list of offsets, each kept when it lands on the board and not
  // on a piece of the mover's colour.

  const KingOffsets: seq<(int, int)> :=
    [(-1, -1), (-1, 0), (-1, 1), (0, -1), (0, 1), (1, -1), (1, 0), (1, 1)]

  const KnightOffsets: seq<(int, int)> :=
    [(-2, -1), (-2, 1), (-1, -2), (-1, 2), (1, -2), (1, 2), (2, -1), (2, 1)]

  /** The destinations reached by `offsets` from (row, col), in the order of the offsets. */
  function Leaps(g: Cells, color: Color, row: int, col: int, offsets: seq<(int, int)>): seq<Square>
    requires WellFormed(g)
  {
    if offsets == [] then []
    else
      var n := |offsets| - 1;
      var r, c := row + offsets[n].0, col + offsets[n].1;
      Leaps(g, color, row, col, offsets[..n])
      + (if IsWithinBounds(r, c) && Open(g, color, r, c) then [Square(r, c)] else [])
  }

  /** A square is listed exactly when its offset from the origin is one of `offsets`, it is on the board and open. */
  lemma {:induction false} LeapsMember(g: Cells, color: Color, row: int, col: int, offsets: seq<(int, int)>, m: Square)
    requires WellFormed(g)
    ensures m in Leaps(g, color, row, col, offsets) <==>
      (m.row - row, m.col - col) in offsets && IsWithinBounds(m.row, m.col) && Open(g, color, m.row, m.col)
  {
    if offsets != [] {
      var n := |offsets| - 1;
      LeapsMember(g, color, row, col, offsets[..n], m);
      assert offsets == offsets[..n] + [offsets[n]];
    }
  }

  /** One king step away: a different square at most one row and one column off. */
  predicate KingStep(row: int, col: int, m: Square)
  {
    m != Square(row, col) && -1 <= m.row - row <= 1 && -1 <= m.col - col <= 1
  }

  /** One knight jump away: two rows and one column off, or one row and two columns. */
  predicate KnightJump(row: int, col: int, m: Square)
  {
    (Abs(m.row - row) == 1 && Abs(m.col - col) == 2) || (Abs(m.row - row) == 2 && Abs(m.col - col) == 1)
  }

  function KingTargets(g: Cells, color: Color, row: int, col: int): seq<Square>
    requires WellFormed(g)
  {
    Leaps(g, color, row, col, KingOffsets)
  }

  function KnightTargets(g: Cells, color: Color, row: int, col: int): seq<Square>
    requires WellFormed(g)
  {
    Leaps(g, color, row, col, KnightOffsets)
  }

  /** The king lists exactly the on-board squares one step away not held by its own colour. */
  lemma KingTargetsExactly(g: Cells, color: Color, row: int, col: int, m: Square)
    requires WellFormed(g)
    ensures m in KingTargets(g, color, row, col) <==>
      KingStep(row, col, m) && IsWithinBounds(m.row, m.col) && Open(g, color, m.row, m.col)
  {
    LeapsMember(g, color, row, col, KingOffsets, m);
    var d := (m.row - row, m.col - col);
    if KingStep(row, col, m) {
      assert d in KingOffsets by {
        if d.0 == -1 {
          assert d == KingOffsets[0] || d == KingOffsets[1] || d == KingOffsets[2];
        } else if d.0 == 0 {
          assert d == KingOffsets[3] || d == KingOffsets[4];
        } else {
          assert d == KingOffsets[5] || d == KingOffsets[6] || d == KingOffsets[7];
        }
      }
    }
  }

  /** The knight lists exactly the on-board squares a jump away not held by its own colour. */
  lemma KnightTargetsExactly(g: Cells, color: Color, row: int, col: int, m: Square)
    requires WellFormed(g)
    ensures m in KnightTargets(g, color, row, col) <==>
      KnightJump(row, col, m) && IsWithinBounds(m.row, m.col) && Open(g, color, m.row, m.col)
  {
    LeapsMember(g, color, row, col, KnightOffsets, m);
    var d := (m.row - row, m.col - col);
    if KnightJump(row, col, m) {
      assert d in KnightOffsets by {
        if d.0 == -2 {
          assert d == KnightOffsets[0] || d == KnightOffsets[1];
        } else if d.0 == -1 {
          assert d == KnightOffsets[2] || d == KnightOffsets[3];
        } else if d.0 == 1 {
          assert d == KnightOffsets[4] || d == KnightOffsets[5];
        } else {
          assert d == KnightOffsets[6] || d == KnightOffsets[7];
        }
      }
    }
  }

  /** Taking one more offset appends that offset's destination, if it is kept. */
  lemma LeapsSnoc(g: Cells, color: Color, row: int, col: int, offsets: seq<(int, int)>, i: nat)
    requires WellFormed(g) && i < |offsets|
    ensures var r, c := row + offsets[i].0, col + offsets[i].1;
      Leaps(g, color, row, col, offsets[..i + 1]) == Leaps(g, color, row, col, offsets[..i])
        + (if IsWithinBounds(r, c) && Open(g, color, r, c) then [Square(r, c)] else [])
  {
    assert offsets[..i + 1][..i] == offsets[..i];
  }

  /** The loop shared by King and Knight: try each offset in turn. */
  method LeapMoves(g: Cells, color: Color, row: int, col: int, offsets: seq<(int, int)>) returns (moves: seq<Square>)
    requires WellFormed(g)
    ensures moves == Leaps(g, color, row, col, offsets)
  {
    moves := [];
    for i := 0 to |offsets|
      invariant moves == Leaps(g, color, row, col, offsets[..i])
    {
      var (dr, dc) := offsets[i];
      var r, c := row + dr, col + dc;
      if 0 <= r < Size && 0 <= c < Size {
        var target := g[r][c];
        if target.None? || target.value.color != color {
          moves := moves + [Square(r, c)];
        }
      }
      LeapsSnoc(g, color, row, col, offsets, i);
    }
    assert offsets[..|offsets|] == offsets;
  }

  method KingMoves(g: Cells, color: Color, row: int, col: int) returns (moves: seq<Square>)
    requires WellFormed(g)
    ensures moves == KingTargets(g, color, row, col)
    ensures forall m :: m in moves <==>
      KingStep(row, col, m) && IsWithinBounds(m.row, m.col) && Open(g, color, m.row, m.col)
  {
    moves := LeapMoves(g, color, row, col, KingOffsets);
    forall m ensures m in moves <==> KingStep(row, col, m) && IsWithinBounds(m.row, m.col) && Open(g, color, m.row, m.col) {
      KingTargetsExactly(g, color, row, col, m);
    }
  }

  method KnightMoves(g: Cells, color: Color, row: int, col: int) returns (moves: seq<Square>)
    requires WellFormed(g)
    ensures moves == KnightTargets(g, color, row, col)
    ensures forall m :: m in moves <==>
      KnightJump(row, col, m) && IsWithinBounds(m.row, m.col) && Open(g, color, m.row, m.col)
  {
    moves := LeapMoves(g, color, row, col, KnightOffsets);
    forall m ensures m in moves <==> KnightJump(row, col, m) && IsWithinBounds(m.row, m.col) && Open(g, color, m.row, m.col) {
      KnightTargetsExactly(g, color, row, col, m);
    }
  }

  // ---------------------------------------------------------------------------------------
  // Rook and Bishop: walk each ray until it leaves the board or meets a piece.

  /** A unit direction: each component -1, 0 or 1, not both 0. */
  predicate IsDirection(dr: int, dc: int)
  {
    -1 <= dr <= 1 && -1 <= dc <= 1 && (dr != 0 || dc != 0)
  }

  /** How many squares are left from coordinate x, moving by d, before the edge (0 when d is 0). */
  function Room(x: int, d: int): int
  {
    if d > 0 then Size - x else if d < 0 then x + 1 else 0
  }

  /** The coordinate k squares from x in direction d, for d in {-1, 0, 1}. */
  function Step(x: int, k: int, d: int): int
  {
    if d > 0 then x + k else if d < 0 then x - k else x
  }

  /**
   * The squares listed along one ray, starting at (r, c) itself: empty squares are listed and
   * the walk goes on; a square of the other colour is listed and the walk stops; a square of
   * the mover's colour or the edge stops the walk.
   */
  function Slide(g: Cells, color: Color, r: int, c: int, dr: int, dc: int): seq<Square>
    requires WellFormed(g) && IsDirection(dr, dc)
    decreases Room(r, dr) + Room(c, dc)
  {
    if !IsWithinBounds(r, c) then []
    else if g[r][c].None? then [Square(r, c)] + Slide(g, color, r + dr, c + dc, dr, dc)
    else if g[r][c].value.color != color then [Square(r, c)]
    else []
  }

  /** The k-th square of a ray is k steps from its start. */
  lemma {:induction false} SlideAlongRay(g: Cells, color: Color, r: int, c: int, dr: int, dc: int)
    requires WellFormed(g) && IsDirection(dr, dc)
    ensures var w := Slide(g, color, r, c, dr, dc);
      forall k :: 0 <= k < |w| ==> w[k] == Square(Step(r, k, dr), Step(c, k, dc))
    decreases Room(r, dr) + Room(c, dc)
  {
    if IsWithinBounds(r, c) && g[r][c].None? {
      var w := Slide(g, color, r, c, dr, dc);
      var rest := Slide(g, color, r + dr, c + dc, dr, dc);
      SlideAlongRay(g, color, r + dr, c + dc, dr, dc);
      assert w == [Square(r, c)] + rest;
      forall k | 0 <= k < |w|
        ensures w[k] == Square(Step(r, k, dr), Step(c, k, dc))
      {
        if k > 0 {
          assert w[k] == rest[k - 1] == Square(Step(r + dr, k - 1, dr), Step(c + dc, k - 1, dc));
          assert Step(r + dr, k - 1, dr) == Step(r, k, dr) && Step(c + dc, k - 1, dc) == Step(c, k, dc);
        }
      }
    }
  }

  /**
   * What a ray lists: on-board squares only; every square but the last is empty; the last is
   * empty or holds the other colour.
   */
  predicate RayCells(g: Cells, color: Color, w: seq<Square>)
    requires WellFormed(g)
  {
    forall k :: 0 <= k < |w| ==>
      IsWithinBounds(w[k].row, w[k].col) &&
      (k < |w| - 1 ==> g[w[k].row][w[k].col].None?) &&
      Open(g, color, w[k].row, w[k].col)
  }

  /** A ray never passes a piece and never lands on the mover's own colour. */
  lemma {:induction false} SlideCells(g: Cells, color: Color, r: int, c: int, dr: int, dc: int)
    requires WellFormed(g) && IsDirection(dr, dc)
    ensures RayCells(g, color, Slide(g, color, r, c, dr, dc))
    decreases Room(r, dr) + Room(c, dc)
  {
    if IsWithinBounds(r, c) && g[r][c].None? {
      var w := Slide(g, color, r, c, dr, dc);
      var rest := Slide(g, color, r + dr, c + dc, dr, dc);
      SlideCells(g, color, r + dr, c + dc, dr, dc);
      assert w == [Square(r, c)] + rest;
      forall k | 0 <= k < |w|
        ensures IsWithinBounds(w[k].row, w[k].col) && (k < |w| - 1 ==> g[w[k].row][w[k].col].None?) &&
          Open(g, color, w[k].row, w[k].col)
      {
        if k > 0 {
          var j := k - 1;
          assert w[k] == rest[j];
          assert IsWithinBounds(rest[j].row, rest[j].col) && (j < |rest| - 1 ==> g[rest[j].row][rest[j].col].None?) &&
            Open(g, color, rest[j].row, rest[j].col);
        }
      }
    }
  }

  /** The list is empty or ends on an empty on-board square. */
  predicate EndsEmpty(g: Cells, w: seq<Square>)
    requires WellFormed(g)
  {
    |w| == 0 || (IsWithinBounds(w[|w| - 1].row, w[|w| - 1].col) && g[w[|w| - 1].row][w[|w| - 1].col].None?)
  }

  /** A walk is stopped at (r, c): the square is off the board or holds the mover's colour. */
  predicate Blocked(g: Cells, color: Color, r: int, c: int)
    requires WellFormed(g)
  {
    !IsWithinBounds(r, c) || HoldsColor(g, r, c, color)
  }

  /**
   * A ray stops at the first blocker: when it is empty or ends on an empty square, the next
   * square along it is off the board or holds a piece of the mover's colour.
   */
  lemma {:induction false} SlideStops(g: Cells, color: Color, r: int, c: int, dr: int, dc: int)
    requires WellFormed(g) && IsDirection(dr, dc)
    ensures var w := Slide(g, color, r, c, dr, dc);
      EndsEmpty(g, w) ==> Blocked(g, color, Step(r, |w|, dr), Step(c, |w|, dc))
    decreases Room(r, dr) + Room(c, dc)
  {
    var w := Slide(g, color, r, c, dr, dc);
    if !IsWithinBounds(r, c) {
      assert w == [];
    } else if g[r][c].None? {
      var rest := Slide(g, color, r + dr, c + dc, dr, dc);
      SlideStops(g, color, r + dr, c + dc, dr, dc);
      assert w == [Square(r, c)] + rest;
      assert Step(r, |w|, dr) == Step(r + dr, |rest|, dr) && Step(c, |w|, dc) == Step(c + dc, |rest|, dc);
      if rest == [] {
        assert EndsEmpty(g, rest);
      } else {
        assert w[|w| - 1] == rest[|rest| - 1];
        assert EndsEmpty(g, w) == EndsEmpty(g, rest);
      }
    } else if g[r][c].value.color != color {
      assert w == [Square(r, c)];
      assert !EndsEmpty(g, w);
    } else {
      assert w == [];
      assert Blocked(g, color, r, c);
    }
  }

  /** Every square of a ray is some k >= 0 steps from its start, on the board and open to the mover. */
  lemma SlideMember(g: Cells, color: Color, r: int, c: int, dr: int, dc: int, m: Square)
    requires WellFormed(g) && IsDirection(dr, dc)
    requires m in Slide(g, color, r, c, dr, dc)
    ensures IsWithinBounds(m.row, m.col) && Open(g, color, m.row, m.col)
    ensures exists k: nat :: m == Square(Step(r, k, dr), Step(c, k, dc))
  {
    SlideAlongRay(g, color, r, c, dr, dc);
    SlideCells(g, color, r, c, dr, dc);
    var w := Slide(g, color, r, c, dr, dc);
    var k :| 0 <= k < |w| && w[k] == m;
    if k < |w| - 1 {
      assert g[m.row][m.col].None?;
    }
  }

  predicate AllDirections(dirs: seq<(int, int)>)
  {
    forall i :: 0 <= i < |dirs| ==> IsDirection(dirs[i].0, dirs[i].1)
  }

  /** The rays of `dirs` from the squares next to (row, col), concatenated in the order of `dirs`. */
  function Rays(g: Cells, color: Color, row: int, col: int, dirs: seq<(int, int)>): seq<Square>
    requires WellFormed(g) && AllDirections(dirs)
  {
    if dirs == [] then []
    else
      var n := |dirs| - 1;
      Rays(g, color, row, col, dirs[..n]) + Slide(g, color, row + dirs[n].0, col + dirs[n].1, dirs[n].0, dirs[n].1)
  }

  /**
   * Every square listed by the rays lies k >= 1 steps from (row, col) along one of the
   * directions, is on the board and is open to the mover.
   */
  lemma {:induction false} RaysMember(g: Cells, color: Color, row: int, col: int, dirs: seq<(int, int)>, m: Square)
    requires WellFormed(g) && AllDirections(dirs)
    requires m in Rays(g, color, row, col, dirs)
    ensures IsWithinBounds(m.row, m.col) && Open(g, color, m.row, m.col)
    ensures exists i, k :: 0 <= i < |dirs| && 1 <= k && m == Square(Step(row, k, dirs[i].0), Step(col, k, dirs[i].1))
  {
    var n := |dirs| - 1;
    var dr, dc := dirs[n].0, dirs[n].1;
    var earlier := Rays(g, color, row, col, dirs[..n]);
    var ray := Slide(g, color, row + dr, col + dc, dr, dc);
    assert Rays(g, color, row, col, dirs) == earlier + ray;
    if m in earlier {
      RaysMember(g, color, row, col, dirs[..n], m);
      var i, k :| 0 <= i < n && 1 <= k && m == Square(Step(row, k, dirs[..n][i].0), Step(col, k, dirs[..n][i].1));
      assert dirs[..n][i] == dirs[i];
      assert 0 <= i < |dirs| && 1 <= k && m == Square(Step(row, k, dirs[i].0), Step(col, k, dirs[i].1));
    } else {
      assert m in ray;
      SlideMember(g, color, row + dr, col + dc, dr, dc, m);
      var k: nat :| m == Square(Step(row + dr, k, dr), Step(col + dc, k, dc));
      assert 0 <= n < |dirs| && 1 <= k + 1 && m == Square(Step(row, k + 1, dirs[n].0), Step(col, k + 1, dirs[n].1));
    }
  }

  const RookDirections: seq<(int, int)> := [(-1, 0), (1, 0), (0, -1), (0, 1)]

  const BishopDirections: seq<(int, int)> := [(-1, -1), (-1, 1), (1, -1), (1, 1)]

  function RookTargets(g: Cells, color: Color, row: int, col: int): seq<Square>
    requires WellFormed(g)
  {
    Rays(g, color, row, col, RookDirections)
  }

  function BishopTargets(g: Cells, color: Color, row: int, col: int): seq<Square>
    requires WellFormed(g)
  {
    Rays(g, color, row, col, BishopDirections)
  }

  /** A rook destination shares exactly one of the origin's row and column. */
  predicate OnRookLine(row: int, col: int, m: Square)
  {
    (m.row == row) != (m.col == col)
  }

  /** A bishop destination is a nonzero distance from the origin along a diagonal. */
  predicate OnDiagonal(row: int, col: int, m: Square)
  {
    Abs(m.row - row) == Abs(m.col - col) != 0
  }

  /** Rook destinations are on the board, open to the mover and on the origin's row or column. */
  lemma RookTargetsGeometry(g: Cells, color: Color, row: int, col: int, m: Square)
    requires WellFormed(g)
    requires m in RookTargets(g, color, row, col)
    ensures IsWithinBounds(m.row, m.col) && Open(g, color, m.row, m.col) && OnRookLine(row, col, m)
  {
    RaysMember(g, color, row, col, RookDirections, m);
  }

  /** Bishop destinations are on the board, open to the mover and on a diagonal through the origin. */
  lemma BishopTargetsGeometry(g: Cells, color: Color, row: int, col: int, m: Square)
    requires WellFormed(g)
    requires m in BishopTargets(g, color, row, col)
    ensures IsWithinBounds(m.row, m.col) && Open(g, color, m.row, m.col) && OnDiagonal(row, col, m)
  {
    RaysMember(g, color, row, col, BishopDirections, m);
  }

  /** Taking one more direction appends that direction's ray. */
  lemma RaysSnoc(g: Cells, color: Color, row: int, col: int, dirs: seq<(int, int)>, i: nat)
    requires WellFormed(g) && AllDirections(dirs) && i < |dirs|
    ensures Rays(g, color, row, col, dirs[..i + 1]) ==
      Rays(g, color, row, col, dirs[..i]) + Slide(g, color, row + dirs[i].0, col + dirs[i].1, dirs[i].0, dirs[i].1)
  {
    assert dirs[..i + 1][..i] == dirs[..i];
  }

  /** One step of a walk along a ray: what the square (r, c) adds to the squares listed so far. */
  lemma WalkStep(g: Cells, color: Color, r: int, c: int, dr: int, dc: int, done: seq<Square>)
    requires WellFormed(g) && IsDirection(dr, dc) && IsWithinBounds(r, c)
    ensures g[r][c].None? ==>
      done + Slide(g, color, r, c, dr, dc) == (done + [Square(r, c)]) + Slide(g, color, r + dr, c + dc, dr, dc)
    ensures g[r][c].Some? && g[r][c].value.color != color ==> done + Slide(g, color, r, c, dr, dc) == done + [Square(r, c)]
    ensures g[r][c].Some? && g[r][c].value.color == color ==> done + Slide(g, color, r, c, dr, dc) == done
  {
    if g[r][c].None? {
      assert Slide(g, color, r, c, dr, dc) == [Square(r, c)] + Slide(g, color, r + dr, c + dc, dr, dc);
    } else if g[r][c].value.color == color {
      assert done + [] == done;
    }
  }

  /** The inner `while` of Rook and Bishop: walk from (r0, c0) along (dr, dc) until blocked. */
  method WalkRay(g: Cells, color: Color, r0: int, c0: int, dr: int, dc: int) returns (squares: seq<Square>)
    requires WellFormed(g) && IsDirection(dr, dc)
    ensures squares == Slide(g, color, r0, c0, dr, dc)
  {
    squares := [];
    var r, c := r0, c0;
    while 0 <= r < Size && 0 <= c < Size
      invariant squares + Slide(g, color, r, c, dr, dc) == Slide(g, color, r0, c0, dr, dc)
      decreases Room(r, dr) + Room(c, dc)
    {
      var target := g[r][c];
      WalkStep(g, color, r, c, dr, dc, squares);
      if target.None? {
        squares := squares + [Square(r, c)];
      } else if target.value.color != color {
        squares := squares + [Square(r, c)];
        return;
      } else {
        return;
      }
      r, c := r + dr, c + dc;
    }
    assert squares + [] == squares;
  }

  /** The loop shared by Rook and Bishop: for each direction, walk until blocked. */
  method SlideMoves(g: Cells, color: Color, row: int, col: int, dirs: seq<(int, int)>) returns (moves: seq<Square>)
    requires WellFormed(g) && AllDirections(dirs)
    ensures moves == Rays(g, color, row, col, dirs)
  {
    moves := [];
    for i := 0 to |dirs|
      invariant moves == Rays(g, color, row, col, dirs[..i])
    {
      var (dr, dc) := dirs[i];
      var squares := WalkRay(g, color, row + dr, col + dc, dr, dc);
      moves := moves + squares;
      RaysSnoc(g, color, row, col, dirs, i);
    }
    assert dirs[..|dirs|] == dirs;
  }

  method RookMoves(g: Cells, color: Color, row: int, col: int) returns (moves: seq<Square>)
    requires WellFormed(g)
    ensures moves == RookTargets(g, color, row, col)
    ensures forall m :: m in moves ==>
      IsWithinBounds(m.row, m.col) && Open(g, color, m.row, m.col) && OnRookLine(row, col, m)
  {
    moves := SlideMoves(g, color, row, col, RookDirections);
    forall m | m in moves
      ensures IsWithinBounds(m.row, m.col) && Open(g, color, m.row, m.col) && OnRookLine(row, col, m)
    {
      RookTargetsGeometry(g, color, row, col, m);
    }
  }

  method BishopMoves(g: Cells, color: Color, row: int, col: int) returns (moves: seq<Square>)
    requires WellFormed(g)
    ensures moves == BishopTargets(g, color, row, col)
    ensures forall m :: m in moves ==>
      IsWithinBounds(m.row, m.col) && Open(g, color, m.row, m.col) && OnDiagonal(row, col, m)
  {
    moves := SlideMoves(g, color, row, col, BishopDirections);
    forall m | m in moves
      ensures IsWithinBounds(m.row, m.col) && Open(g, color, m.row, m.col) && OnDiagonal(row, col, m)
    {
      BishopTargetsGeometry(g, color, row, col, m);
    }
  }

  // ---------------------------------------------------------------------------------------
  // Queen: the rook's list followed by the bishop's list.

  function QueenTargets(g: Cells, color: Color, row: int, col: int): seq<Square>
    requires WellFormed(g)
  {
    RookTargets(g, color, row, col) + BishopTargets(g, color, row, col)
  }

  method QueenMoves(g: Cells, color: Color, row: int, col: int) returns (moves: seq<Square>)
    requires WellFormed(g)
    ensures moves == RookTargets(g, color, row, col) + BishopTargets(g, color, row, col)
    ensures forall m :: m in moves ==>
      IsWithinBounds(m.row, m.col) && Open(g, color, m.row, m.col) && (OnRookLine(row, col, m) || OnDiagonal(row, col, m))
  {
    var straight := RookMoves(g, color, row, col);
    var diagonal := BishopMoves(g, color, row, col);
    moves := straight + diagonal;
  }

  // ---------------------------------------------------------------------------------------
  // Pawn: one step forward onto an empty square, two from the start row, diagonal captures.

  /** White pawns move toward row 0 and black pawns toward row 7. */
  function Forward(color: Color): int
  {
    if color == White then -1 else 1
  }

  /** The row a pawn of each colour starts on. */
  function StartRow(color: Color): int
  {
    if color == White then 6 else 1
  }

  /** The forward moves: one step if empty, then two from the start row if that is empty too. */
  function PawnAdvances(g: Cells, color: Color, row: int, col: int): seq<Square>
    requires WellFormed(g) && 0 <= col < Size
  {
    var d := Forward(color);
    if 0 <= row + d < Size && g[row + d][col].None? then
      [Square(row + d, col)]
      + (if row == StartRow(color) && g[row + 2 * d][col].None? then [Square(row + 2 * d, col)] else [])
    else []
  }

  /** The diagonal captures toward each side in `sides`, kept only onto a piece of the other colour. */
  function PawnCaptures(g: Cells, color: Color, row: int, col: int, sides: seq<int>): seq<Square>
    requires WellFormed(g)
  {
    if sides == [] then []
    else
      var n := |sides| - 1;
      var r, c := row + Forward(color), col + sides[n];
      PawnCaptures(g, color, row, col, sides[..n])
      + (if IsWithinBounds(r, c) && Enemy(g, color, r, c) then [Square(r, c)] else [])
  }

  /** Taking one more side appends that side's capture, if any. */
  lemma PawnCapturesSnoc(g: Cells, color: Color, row: int, col: int, sides: seq<int>, i: nat)
    requires WellFormed(g) && i < |sides|
    ensures var r, c := row + Forward(color), col + sides[i];
      PawnCaptures(g, color, row, col, sides[..i + 1]) == PawnCaptures(g, color, row, col, sides[..i])
        + (if IsWithinBounds(r, c) && Enemy(g, color, r, c) then [Square(r, c)] else [])
  {
    assert sides[..i + 1][..i] == sides[..i];
  }

  const CaptureSides: seq<int> := [-1, 1]

  function PawnTargets(g: Cells, color: Color, row: int, col: int): seq<Square>
    requires WellFormed(g) && 0 <= col < Size
  {
    PawnAdvances(g, color, row, col) + PawnCaptures(g, color, row, col, CaptureSides)
  }

  /**
   * Where a pawn may go, stated square by square: the square ahead when it is on the board and
   * empty; the square two ahead when the pawn is on its start row and both squares are empty;
   * a square diagonally ahead when it is on the board and holds a piece of the other colour.
   */
  predicate PawnReach(g: Cells, color: Color, row: int, col: int, m: Square)
    requires WellFormed(g) && 0 <= col < Size
  {
    var d := Forward(color);
    || (m == Square(row + d, col) && 0 <= row + d < Size && g[row + d][col].None?)
    || (m == Square(row + 2 * d, col) && row == StartRow(color) && g[row + d][col].None? && g[row + 2 * d][col].None?)
    || (m.row == row + d && Abs(m.col - col) == 1 && IsWithinBounds(m.row, m.col) && Enemy(g, color, m.row, m.col))
  }

  lemma {:induction false} PawnCapturesMember(g: Cells, color: Color, row: int, col: int, sides: seq<int>, m: Square)
    requires WellFormed(g)
    ensures m in PawnCaptures(g, color, row, col, sides) <==>
      m.row == row + Forward(color) && (m.col - col) in sides && IsWithinBounds(m.row, m.col) && Enemy(g, color, m.row, m.col)
  {
    if sides != [] {
      var n := |sides| - 1;
      PawnCapturesMember(g, color, row, col, sides[..n], m);
      assert sides == sides[..n] + [sides[n]];
    }
  }

  /** A pawn lists exactly the squares `PawnReach` describes. */
  lemma PawnTargetsExactly(g: Cells, color: Color, row: int, col: int, m: Square)
    requires WellFormed(g) && 0 <= col < Size
    ensures m in PawnTargets(g, color, row, col) <==> PawnReach(g, color, row, col, m)
  {
    PawnCapturesMember(g, color, row, col, CaptureSides, m);
    assert (m.col - col) in CaptureSides <==> Abs(m.col - col) == 1;
  }

  lemma PawnTargetsAll(g: Cells, color: Color, row: int, col: int)
    requires WellFormed(g) && 0 <= col < Size
    ensures forall m :: m in PawnTargets(g, color, row, col) <==> PawnReach(g, color, row, col, m)
  {
    forall m ensures m in PawnTargets(g, color, row, col) <==> PawnReach(g, color, row, col, m) {
      PawnTargetsExactly(g, color, row, col, m);
    }
  }

  /** The capture loop over the two diagonal sides. */
  method PawnCaptureMoves(g: Cells, color: Color, row: int, col: int) returns (captures: seq<Square>)
    requires WellFormed(g)
    ensures captures == PawnCaptures(g, color, row, col, CaptureSides)
  {
    captures := [];
    var direction := Forward(color);
    var sides := CaptureSides;
    assert sides[..0] == [];
    for i := 0 to |sides|
      invariant captures == PawnCaptures(g, color, row, col, sides[..i])
    {
      var r, c := row + direction, col + sides[i];
      if 0 <= r < Size && 0 <= c < Size {
        var target := g[r][c];
        if target.Some? && target.value.color != color {
          captures := captures + [Square(r, c)];
        }
      }
      PawnCapturesSnoc(g, color, row, col, sides, i);
    }
    assert sides[..|sides|] == sides;
  }

  method PawnMoves(g: Cells, color: Color, row: int, col: int) returns (moves: seq<Square>)
    requires WellFormed(g) && 0 <= col < Size
    ensures moves == PawnTargets(g, color, row, col)
    ensures forall m :: m in moves <==> PawnReach(g, color, row, col, m)
  {
    moves := [];
    var direction := Forward(color);
    var startRow := StartRow(color);
    if 0 <= row + direction < Size && g[row + direction][col].None? {
      moves := moves + [Square(row + direction, col)];
      if row == startRow && g[row + 2 * direction][col].None? {
        moves := moves + [Square(row + 2 * direction, col)];
      }
    }
    var captures := PawnCaptureMoves(g, color, row, col);
    moves := moves + captures;
    PawnTargetsAll(g, color, row, col);
  }

  // ---------------------------------------------------------------------------------------
  // Dispatch on the piece kind.

  /** The destinations a piece of `kind` and `color` standing on (row, col) lists. */
  function Targets(g: Cells, kind: Kind, color: Color, row: int, col: int): seq<Square>
    requires WellFormed(g) && (kind == Pawn ==> 0 <= col < Size)
  {
    match kind
    case King => KingTargets(g, color, row, col)
    case Queen => QueenTargets(g, color, row, col)
    case Rook => RookTargets(g, color, row, col)
    case Bishop => BishopTargets(g, color, row, col)
    case Knight => KnightTargets(g, color, row, col)
    case Pawn => PawnTargets(g, color, row, col)
  }

  /**
   * Whatever the kind: every destination is on the board, is not the origin, and never holds a
   * piece of the mover's colour.
   */
  lemma TargetsSafe(g: Cells, kind: Kind, color: Color, row: int, col: int, m: Square)
    requires WellFormed(g) && (kind == Pawn ==> 0 <= col < Size)
    requires m in Targets(g, kind, color, row, col)
    ensures IsWithinBounds(m.row, m.col) && Open(g, color, m.row, m.col) && m != Square(row, col)
  {
    match kind
    case King =>
      KingTargetsExactly(g, color, row, col, m);
    case Knight =>
      KnightTargetsExactly(g, color, row, col, m);
    case Rook =>
      RookTargetsGeometry(g, color, row, col, m);
    case Bishop =>
      BishopTargetsGeometry(g, color, row, col, m);
    case Queen =>
      if m in RookTargets(g, color, row, col) {
        RookTargetsGeometry(g, color, row, col, m);
      } else {
        BishopTargetsGeometry(g, color, row, col, m);
      }
    case Pawn =>
      PawnTargetsExactly(g, color, row, col, m);
  }

  /** `get_valid_moves` dispatched on the piece's kind. */
  method ValidMoves(g: Cells, kind: Kind, color: Color, row: int, col: int) returns (moves: seq<Square>)
    requires WellFormed(g) && (kind == Pawn ==> 0 <= col < Size)
    ensures moves == Targets(g, kind, color, row, col)
    ensures forall m :: m in moves ==> IsWithinBounds(m.row, m.col) && Open(g, color, m.row, m.col) && m != Square(row, col)
  {
    match kind {
      case King => moves := KingMoves(g, color, row, col);
      case Queen => moves := QueenMoves(g, color, row, col);
      case Rook => moves := RookMoves(g, color, row, col);
      case Bishop => moves := BishopMoves(g, color, row, col);
      case Knight => moves := KnightMoves(g, color, row, col);
      case Pawn => moves := PawnMoves(g, color, row, col);
    }
    forall m | m in moves
      ensures IsWithinBounds(m.row, m.col) && Open(g, color, m.row, m.col) && m != Square(row, col)
    {
      TargetsSafe(g, kind, color, row, col, m);
    }
  }
}
