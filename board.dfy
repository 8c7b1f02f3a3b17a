/** The 8x8 grid of optional pieces and the side to move, with the in-place
    primitives `set` and `take` (src/board.rs). The grid is also given as a
    value, `Grid`, so that the move generators' specifications and the
    king-exposure filter can talk about a board without the heap. */
module Boards {
  import opened Types
  import opened Pieces

  /** The contents of the 64 cells, row by row. */
  type Grid = g: seq<seq<Option<Piece>>> | |g| == 8 && forall r | 0 <= r < 8 :: |g[r]| == 8
    witness EmptyGrid()

  function EmptyGrid(): seq<seq<Option<Piece>>> {
    seq(8, _ => seq(8, _ => None))
  }

  /** Two grids with the same cells are the same grid. */
  lemma GridExt(g: Grid, h: Grid)
    requires forall r, c | 0 <= r < 8 && 0 <= c < 8 :: g[r][c] == h[r][c]
    ensures g == h
  {
    forall r | 0 <= r < 8
      ensures g[r] == h[r]
    {
      assert forall c | 0 <= c < 8 :: g[r][c] == h[r][c];
    }
  }

  function CellAt(g: Grid, p: Position): Option<Piece>
    requires p.OnBoard()
  {
    g[p.row][p.col]
  }

  /** The grid after writing `v` into the cell at `p`; an off-board `p`
      leaves the grid as it was. */
  function WithCell(g: Grid, p: Position, v: Option<Piece>): (h: Grid)
    ensures p.OnBoard() ==> CellAt(h, p) == v
    ensures forall q: Position | q.OnBoard() && q != p :: CellAt(h, q) == CellAt(g, q)
    ensures !p.OnBoard() ==> h == g
  {
    if p.OnBoard() then g[p.row := g[p.row][p.col := v]] else g
  }

  /** Writing twice to the same cell keeps only the second write. */
  lemma WithCellTwice(g: Grid, p: Position, v: Option<Piece>, w: Option<Piece>)
    ensures WithCell(WithCell(g, p, v), p, w) == WithCell(g, p, w)
  {
    var lhs, rhs := WithCell(WithCell(g, p, v), p, w), WithCell(g, p, w);
    forall r, c | 0 <= r < 8 && 0 <= c < 8
      ensures lhs[r][c] == rhs[r][c]
    {
      var q := Position(r, c);
      assert lhs[r][c] == CellAt(lhs, q) && rhs[r][c] == CellAt(rhs, q);
    }
    GridExt(lhs, rhs);
  }

  /** Writing back what a cell already holds changes nothing. */
  lemma WithCellSame(g: Grid, p: Position)
    requires p.OnBoard()
    ensures WithCell(g, p, CellAt(g, p)) == g
  {
    var h := WithCell(g, p, CellAt(g, p));
    forall r, c | 0 <= r < 8 && 0 <= c < 8
      ensures h[r][c] == g[r][c]
    {
      var q := Position(r, c);
      assert h[r][c] == CellAt(h, q) && g[r][c] == CellAt(g, q);
    }
    GridExt(h, g);
  }

  /** Round trip of `set` and `take`: a piece put at a square is what the
      next take returns, and the take leaves the square empty exactly as if
      the set had never happened. */
  lemma SetThenTake(g: Grid, p: Position, x: Piece)
    requires p.OnBoard()
    ensures CellAt(WithCell(g, p, Some(x)), p) == Some(x)
    ensures WithCell(WithCell(g, p, Some(x)), p, None) == WithCell(g, p, None)
    ensures CellAt(WithCell(WithCell(g, p, Some(x)), p, None), p) == None
  {
    WithCellTwice(g, p, Some(x), None);
  }

  /** `Board::is_empty_cell`, defined on `Board` elsewhere in the crate and
      not modelled; assumed to mean that the cell holds no piece. */
  predicate EmptyAt(g: Grid, p: Position)
    requires p.OnBoard()
  {
    CellAt(g, p).None?
  }

  /** `Board::is_enemy_cell`, defined on `Board` elsewhere in the crate and
      not modelled; assumed to mean that the cell holds a piece of the other
      colour. */
  predicate EnemyAt(g: Grid, p: Position, color: Color)
    requires p.OnBoard()
  {
    CellAt(g, p).Some? && CellAt(g, p).value.color != color
  }

  /** The cell holds a piece of `color` itself. */
  predicate FriendlyAt(g: Grid, p: Position, color: Color)
    requires p.OnBoard()
  {
    CellAt(g, p).Some? && CellAt(g, p).value.color == color
  }

  /** Everything of a board that a read-only borrow can see. */
  datatype Snapshot = Snapshot(squares: Grid, turn: Color)

  /** `Board::exclude_king_exposure`, defined on `Board` elsewhere in the
      crate and not modelled: it edits a move list for a piece of a colour
      standing on a square, in view of the board. It is left uninterpreted. */
  type Filter = (seq<Position>, Position, Color, Snapshot) -> seq<Position>

  /** On the board `s`, the filter only ever drops moves, as its name says. */
  ghost predicate OnlyRemoves(exclude: Filter, s: Snapshot) {
    forall ms, p, c, q :: q in exclude(ms, p, c, s) ==> q in ms
  }

  /** `Board { squares: [[Option<Piece>; 8]; 8], turn: Color }` */
  class Board {
    var squares: array2<Option<Piece>>
    var turn: Color

    ghost predicate Valid()
      reads this
    {
      squares.Length0 == 8 && squares.Length1 == 8
    }

    /** The cells as a value. */
    function Grid(): (g: Grid)
      reads this, squares
      requires Valid()
      ensures forall r, c | 0 <= r < 8 && 0 <= c < 8 :: g[r][c] == squares[r, c]
    {
      seq(8, r requires 0 <= r < 8 && squares.Length0 == 8 && squares.Length1 == 8 reads this, squares =>
        seq(8, c requires 0 <= c < 8 && r < squares.Length0 && c < squares.Length1 reads this, squares =>
          squares[r, c]))
    }

    function View(): (s: Snapshot)
      reads this, squares
      requires Valid()
      ensures s.squares == Grid() && s.turn == turn
    {
      Snapshot(Grid(), turn)
    }

    /** `Board::default()`: every cell empty and White to move. */
    constructor ()
      ensures Valid() && fresh(squares)
      ensures Grid() == EmptyGrid()
      ensures forall p: Position | p.OnBoard() :: CellAt(Grid(), p) == None
      ensures turn == DefaultColor()
    {
      squares := new Option<Piece>[8, 8]((_, _) => None);
      turn := DefaultColor();
      new;
      GridExt(Grid(), EmptyGrid());
    }

    /** The board's own `is_empty_cell` query, read straight from the array. */
    function IsEmptyCell(p: Position): (b: bool)
      reads this, squares
      requires Valid() && p.OnBoard()
      ensures b <==> EmptyAt(Grid(), p)
    {
      squares[p.row, p.col].None?
    }

    /** The board's own `is_enemy_cell` query, read straight from the array. */
    function IsEnemyCell(p: Position, color: Color): (b: bool)
      reads this, squares
      requires Valid() && p.OnBoard()
      ensures b <==> EnemyAt(Grid(), p, color)
    {
      squares[p.row, p.col].Some? && squares[p.row, p.col].value.color != color
    }

    /** `Board::set`: writes the cell at an on-board square; any other square
        is silently ignored. */
    method Set(p: Position, piece: Option<Piece>)
      requires Valid()
      modifies squares
      ensures Valid()
      ensures Grid() == WithCell(old(Grid()), p, piece)
    {
      if Position.IsValid(p.row, p.col) {
        squares[p.row, p.col] := piece;
      }
      GridExt(Grid(), WithCell(old(Grid()), p, piece));
    }

    /** `Board::take`: empties an on-board cell and returns what it held;
        for an off-board square returns None and changes nothing. */
    method Take(p: Position) returns (r: Option<Piece>)
      requires Valid()
      modifies squares
      ensures Valid()
      ensures r == (if p.OnBoard() then CellAt(old(Grid()), p) else None)
      ensures Grid() == WithCell(old(Grid()), p, None)
    {
      if Position.IsValid(p.row, p.col) {
        r := squares[p.row, p.col];
        squares[p.row, p.col] := None;
      } else {
        r := None;
      }
      GridExt(Grid(), WithCell(old(Grid()), p, None));
    }
  }

  // ---- the guard of `set` and `take` as the source writes it ----

  /** `Position::is_valid(pos.row as i8, pos.col as i8)` */
  predicate SetGuardAsWritten(p: Position) {
    Position.IsValid(AsI8(p.row), AsI8(p.col))
  }

  /** Row 256 truncates to 0, so the guard lets an off-board square through
      and the following array index is out of bounds. */
  lemma SetGuardAdmitsOffBoard()
    ensures SetGuardAsWritten(Position(256, 3)) && !Position(256, 3).OnBoard()
  {
    assert AsI8(256) == 0;
  }

  /** For coordinates below 128 the guard as written is the bounds check. */
  lemma SetGuardAgrees(p: Position)
    requires p.row < 128 && p.col < 128
    ensures SetGuardAsWritten(p) <==> p.OnBoard()
  {
  }
}
