/** The queen (src/piece/queen.rs): eight sliding directions, legal moves as
    the king-exposure filter applied to the rays, and the has-moved flag. */
module QueenRules {
  import opened Types
  import opened Pieces
  import opened Boards
  import opened Utils

  /** `DIRS`: the four orthogonal and four diagonal directions. */
  const DIRS: seq<Delta> := [(1, 0), (-1, 0), (0, 1), (0, -1), (1, 1), (-1, -1), (-1, 1), (1, -1)]

  /** `DIRS` holds each nonzero vector with components in {-1, 0, 1} exactly once. */
  lemma DirsAreUnitVectors()
    ensures |DIRS| == 8
    ensures forall d: Delta :: d in DIRS <==> -1 <= d.0 <= 1 && -1 <= d.1 <= 1 && d != (0, 0)
    ensures forall i, j | 0 <= i < j < |DIRS| :: DIRS[i] != DIRS[j]
  {
  }

  /** No queen ray can loop: every direction is nonzero. */
  lemma DirsHalt(g: Grid, pos: Position)
    ensures AllHalt(g, pos, DIRS)
  {
    assert forall i | 0 <= i < |DIRS| :: DIRS[i] in DIRS;
  }

  /** The queen's raw candidates: the sliding rays along `DIRS`. */
  function Raw(g: Grid, pos: Position, color: Color): seq<Position> {
    DirsHalt(g, pos);
    Sliding(g, pos, DIRS, color)
  }

  /** `QueenData::legal_moves`: the king-exposure filter applied to the
      sliding candidates along `DIRS`. Nothing is written. */
  method LegalMoves(data: QueenData, pos: Position, color: Color, board: Board, exclude: Filter)
    returns (moves: seq<Position>)
    requires board.Valid()
    ensures moves == exclude(Raw(board.Grid(), pos, color), pos, color, board.View())
  {
    DirsHalt(board.Grid(), pos);
    moves := SlidingMoves(board, pos, DIRS, color);
    moves := exclude(moves, pos, color, board.View());
  }

  /** `QueenData::on_move`: whatever the move, the queen has now moved. The
      board it is handed is left alone. The new state does not depend on the
      old one, so a second call changes nothing. */
  method OnMove(data: QueenData, from: Position, to: Position, color: Color, board: Board)
    modifies data
    ensures data.hasMoved
  {
    data.Moved();
  }

  /** `queen::new` */
  method New(pos: Position, color: Color) returns (p: Piece)
    ensures p.name == Name.Queen && p.color == color && p.pos == pos
    ensures p.data.QueenBox? && fresh(p.data.queen) && !p.data.queen.hasMoved
  {
    var data := new QueenData(false);
    p := Piece(Name.Queen, color, pos, QueenBox(data));
  }

  /** Same row, same column or same diagonal. */
  predicate OnQueenLine(p: Position, q: Position) {
    p.row == q.row || p.col == q.col ||
    q.row - p.row == q.col - p.col || q.row - p.row == p.col - q.col
  }

  /** A square on a ray along a unit direction lies on a queen line through
      the ray's start, is not the start, and is not held by `color`. */
  lemma RayOnLine(g: Grid, pos: Position, dx: int, dy: int, color: Color, q: Position)
    requires -1 <= dx <= 1 && -1 <= dy <= 1 && (dx, dy) != (0, 0)
    requires q in Walk(g, pos, dx, dy, color)
    ensures q.OnBoard() && q != pos && OnQueenLine(pos, q) && !FriendlyAt(g, q, color)
  {
    var w := Walk(g, pos, dx, dy, color);
    WalkShape(g, pos, dx, dy, color);
    WalkStops(g, pos, dx, dy, color);
    WalkAdvances(g, pos, dx, dy, color);
    var k :| 0 <= k < |w| && w[k] == q;
    var m := k + 1;
    assert q.row - pos.row == m * dy && q.col - pos.col == m * dx;
    UnitTimes(m, dy);
    UnitTimes(m, dx);
    assert EmptyAt(g, w[k]) || EnemyAt(g, w[k], color);
  }

  /** Every raw queen candidate is an on-board square on a line through the
      queen, other than the queen's own square, and not held by its own
      colour. */
  lemma RawCandidates(g: Grid, pos: Position, color: Color)
    ensures forall q | q in Raw(g, pos, color) ::
      q.OnBoard() && q != pos && OnQueenLine(pos, q) && !FriendlyAt(g, q, color)
  {
    DirsHalt(g, pos);
    forall q | q in Sliding(g, pos, DIRS, color)
      ensures q.OnBoard() && q != pos && OnQueenLine(pos, q) && !FriendlyAt(g, q, color)
    {
      SlidingMember(g, pos, DIRS, color, q);
      var i :| 0 <= i < |DIRS| && q in Walk(g, pos, DIRS[i].0, DIRS[i].1, color);
      assert DIRS[i] in DIRS;
      RayOnLine(g, pos, DIRS[i].0, DIRS[i].1, color, q);
    }
  }

  function Sign(x: int): int {
    if x > 0 then 1 else if x < 0 then -1 else 0
  }

  /** On an otherwise empty board, the raw candidates of a queen are exactly
      the other on-board squares of its row, column and diagonals. */
  lemma RawOnEmptyBoard(pos: Position, color: Color, q: Position)
    requires pos.OnBoard()
    ensures q in Raw(EmptyGrid(), pos, color) <==> q.OnBoard() && q != pos && OnQueenLine(pos, q)
  {
    var g: Grid := EmptyGrid();
    if q in Raw(g, pos, color) {
      RawCandidates(g, pos, color);
    }
    if q.OnBoard() && q != pos && OnQueenLine(pos, q) {
      var dy, dx := Sign(q.row - pos.row), Sign(q.col - pos.col);
      var m := Dist(pos, q);
      assert q == Position(pos.row + m * dy, pos.col + m * dx) by {
        UnitTimes(m, dy);
        UnitTimes(m, dx);
      }
      EmptyRayReaches(pos, dx, dy, color, m);
      assert (dx, dy) in DIRS by {
        DirsAreUnitVectors();
      }
      DirsHalt(g, pos);
      SlidingMember(g, pos, DIRS, color, q);
    }
  }

  /** The number of king steps from `p` to `q`: along a queen line, the
      number of squares the queen travels. */
  function Dist(p: Position, q: Position): nat {
    var dr, dc := Abs(q.row - p.row), Abs(q.col - p.col);
    if dr < dc then dc else dr
  }

  /** No piece stands strictly between `p` and `q` on the line from `p`
      towards `q`. */
  predicate ClearPath(g: Grid, p: Position, q: Position) {
    Clear(g, p, Sign(q.col - p.col), Sign(q.row - p.row), Dist(p, q))
  }

  /** The queen's raw candidates on any board: exactly the squares on her
      row, column and diagonals, other than her own, that her colour does not
      hold and that she reaches without passing over a piece. */
  lemma RawExactly(g: Grid, pos: Position, color: Color, q: Position)
    requires pos.OnBoard()
    ensures q in Raw(g, pos, color) <==>
      q.OnBoard() && q != pos && OnQueenLine(pos, q) && !FriendlyAt(g, q, color) &&
      ClearPath(g, pos, q)
  {
    if q in Raw(g, pos, color) {
      RawCandidates(g, pos, color);
      RawIsClear(g, pos, color, q);
    }
    if q.OnBoard() && q != pos && OnQueenLine(pos, q) && !FriendlyAt(g, q, color) &&
      ClearPath(g, pos, q)
    {
      ClearIsRaw(g, pos, color, q);
    }
  }

  /** The queen never jumps: the path to each raw candidate is clear. */
  lemma RawIsClear(g: Grid, pos: Position, color: Color, q: Position)
    requires q in Raw(g, pos, color)
    ensures ClearPath(g, pos, q)
  {
    DirsHalt(g, pos);
    SlidingMember(g, pos, DIRS, color, q);
    var i :| 0 <= i < |DIRS| && q in Walk(g, pos, DIRS[i].0, DIRS[i].1, color);
    var dx, dy := DIRS[i].0, DIRS[i].1;
    assert -1 <= dx <= 1 && -1 <= dy <= 1 && (dx, dy) != (0, 0) by {
      assert DIRS[i] in DIRS;
      DirsAreUnitVectors();
    }
    var w := Walk(g, pos, dx, dy, color);
    var k :| 0 <= k < |w| && w[k] == q;
    assert q.row == pos.row + (k + 1) * dy && q.col == pos.col + (k + 1) * dx by {
      WalkShape(g, pos, dx, dy, color);
    }
    UnitTimes(k + 1, dy);
    UnitTimes(k + 1, dx);
    assert Sign(q.col - pos.col) == dx && Sign(q.row - pos.row) == dy && Dist(pos, q) == k + 1;
    WalkClear(g, pos, dx, dy, color, k);
  }

  /** Every square on a queen line that she can reach without passing over a
      piece, and that her colour does not hold, is a raw candidate. */
  lemma ClearIsRaw(g: Grid, pos: Position, color: Color, q: Position)
    requires pos.OnBoard() && q.OnBoard() && q != pos && OnQueenLine(pos, q)
    requires !FriendlyAt(g, q, color) && ClearPath(g, pos, q)
    ensures q in Raw(g, pos, color)
  {
    var dy, dx := Sign(q.row - pos.row), Sign(q.col - pos.col);
    var m := Dist(pos, q);
    UnitTimes(m, dy);
    UnitTimes(m, dx);
    assert q == Position(pos.row + m * dy, pos.col + m * dx);
    RayReaches(g, pos, dx, dy, color, m);
    assert (dx, dy) in DIRS by {
      DirsAreUnitVectors();
    }
    DirsHalt(g, pos);
    SlidingMember(g, pos, DIRS, color, q);
  }
}
