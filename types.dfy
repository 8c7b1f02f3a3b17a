/** Colours, piece names and board squares, with the bounds check and the
    translation of a square by a signed delta (src/types.rs). */
module Types {

  datatype Option<T> = None | Some(value: T)

  /** The two sides; `derive(Default)` makes White the default. */
  datatype Color = White | Black

  function DefaultColor(): (c: Color)
    ensures c == White && c != Black
  {
    White
  }

  datatype Name = Pawn | Knight | Rook | Bishop | King | Queen

  /** A square addressed by row and column. Both are `usize` in the source,
      so a position value may lie off the board. */
  datatype Position = Position(row: nat, col: nat) {

    /** `Position::is_valid`: both coordinates lie in 0..8. */
    static predicate IsValid(row: int, col: int) {
      0 <= row < 8 && 0 <= col < 8
    }

    predicate OnBoard() {
      IsValid(row, col)
    }

    /** `Position::shifted`: `dy` moves the row and `dx` the column; the
        result exists exactly when it lands on the board. */
    function Shifted(dx: int, dy: int): (r: Option<Position>)
      ensures r.Some? <==> IsValid(row + dy, col + dx)
      ensures r.Some? ==> r.value.row == row + dy && r.value.col == col + dx
      ensures r.Some? ==> r.value.OnBoard()
    {
      var ri := row + dy;
      var ci := col + dx;
      if IsValid(ri, ci) then Some(Position(ri, ci)) else None
    }
  }

  /** The 64 squares in row-major order, an independent description of the
      set `IsValid` accepts. */
  function Squares(): (s: seq<Position>)
    ensures |s| == 64
  {
    seq(64, i requires 0 <= i < 64 => Position(i / 8, i % 8))
  }

  lemma SquaresAreTheBoard(p: Position)
    ensures p.OnBoard() <==> p in Squares()
  {
    if p.OnBoard() {
      var k := p.row * 8 + p.col;
      assert k / 8 == p.row && k % 8 == p.col;
      assert Squares()[k] == p;
    }
  }

  lemma SquaresDistinct(i: int, j: int)
    requires 0 <= i < j < 64
    ensures Squares()[i] != Squares()[j]
  {
  }

  /** A shift by the zero delta returns the square itself. */
  lemma ShiftedZero(p: Position)
    requires p.OnBoard()
    ensures p.Shifted(0, 0) == Some(p)
  {
  }

  /** Shifting back by the opposite delta undoes a successful shift. */
  lemma ShiftedInverse(p: Position, dx: int, dy: int)
    requires p.OnBoard() && p.Shifted(dx, dy).Some?
    ensures p.Shifted(dx, dy).value.Shifted(-dx, -dy) == Some(p)
  {
  }

  // ---- `as i8` conversions as the source writes them ----

  /** Two's-complement truncation of an unsigned value to `i8` (`n as i8`). */
  function AsI8(n: nat): (r: int)
    ensures -128 <= r < 128
    ensures (r - n) % 256 == 0
    ensures n < 128 ==> r == n
  {
    (n + 128) % 256 - 128
  }

  /** `shifted` as written: the coordinates are first truncated to `i8`.
      The requires excludes the `i8` addition overflow, which panics. */
  function ShiftedAsWritten(p: Position, dx: int, dy: int): (r: Option<Position>)
    requires -128 <= AsI8(p.row) + dy < 128 && -128 <= AsI8(p.col) + dx < 128
    ensures r.Some? ==> r.value.OnBoard()
  {
    var ri := AsI8(p.row) + dy;
    var ci := AsI8(p.col) + dx;
    if Position.IsValid(ri, ci) then Some(Position(ri, ci)) else None
  }

  /** The truncation wraps an off-board row of 250 to -6, so a shift by 7
      rows lands on the board although 250 + 7 is far off it. */
  lemma ShiftedAsWrittenWraps()
    ensures ShiftedAsWritten(Position(250, 0), 0, 7) == Some(Position(1, 0))
    ensures Position(250, 0).Shifted(0, 7) == None
  {
    assert AsI8(250) == -6;
  }

  /** Below 128 the truncation is the identity, and the two definitions agree. */
  lemma ShiftedAsWrittenAgrees(p: Position, dx: int, dy: int)
    requires p.row < 128 && p.col < 128
    requires -128 <= p.row + dy < 128 && -128 <= p.col + dx < 128
    ensures ShiftedAsWritten(p, dx, dy) == p.Shifted(dx, dy)
  {
  }
}
