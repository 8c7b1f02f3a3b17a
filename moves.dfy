/** Dispatch to a piece's variant and `Board::apply_move` (src/board.rs).
    `apply_move` is a method of `Board` in the source; it is declared here,
    as a method taking the board, because it needs the piece rules, which
    in turn need the board. */
module Moves {
  import opened Types
  import opened Pieces
  import opened Boards
  import opened Utils
  import QueenRules
  import KnightRules

  /** The candidates of a piece's variant before the king-exposure filter. */
  function RawMoves(data: Data, pos: Position, color: Color, g: Grid): seq<Position> {
    match data
    case QueenBox(_) => QueenRules.Raw(g, pos, color)
    case KnightBox(_) => KnightRules.Raw(g, pos, color)
  }

  /** What `legal_moves` returns for a piece's variant on the board `s`. */
  function Legal(data: Data, pos: Position, color: Color, s: Snapshot, exclude: Filter): seq<Position> {
    exclude(RawMoves(data, pos, color, s.squares), pos, color, s)
  }

  /** `piece.data.legal_moves(pos, color, board)`: dynamic dispatch on the variant. */
  method LegalMoves(data: Data, pos: Position, color: Color, board: Board, exclude: Filter)
    returns (moves: seq<Position>)
    requires board.Valid()
    ensures moves == Legal(data, pos, color, board.View(), exclude)
  {
    match data
    case QueenBox(q) =>
      moves := QueenRules.LegalMoves(q, pos, color, board, exclude);
    case KnightBox(k) =>
      moves := KnightRules.LegalMoves(k, pos, color, board, exclude);
  }

  /** `piece.data.on_move(from, to, color, board)`: dynamic dispatch on the variant. */
  method OnMove(data: Data, from: Position, to: Position, color: Color, board: Board)
    modifies data.State()
    ensures data.HasMoved()
  {
    match data
    case QueenBox(q) =>
      QueenRules.OnMove(q, from, to, color, board);
    case KnightBox(k) =>
      KnightRules.OnMove(k, from, to, color, board);
  }

  /** The board as `apply_move` sees it once the mover is lifted off `from`. */
  function Lifted(s: Snapshot, from: Position): Snapshot {
    Snapshot(WithCell(s.squares, from, None), s.turn)
  }

  /** `apply_move` commits: `from` holds a piece, and `to` is among that
      piece's legal moves computed with the piece lifted off the board. */
  predicate Accepted(s: Snapshot, from: Position, to: Position, exclude: Filter) {
    from.OnBoard() && CellAt(s.squares, from).Some? &&
    var piece := CellAt(s.squares, from).value;
    to in Legal(piece.data, from, piece.color, Lifted(s, from), exclude)
  }

  /** The cells after `apply_move(from, to)` on the board `s`. */
  function Applied(s: Snapshot, from: Position, to: Position, exclude: Filter): Grid {
    if Accepted(s, from, to, exclude) then
      var piece := CellAt(s.squares, from).value;
      WithCell(WithCell(s.squares, from, None), to, Some(piece.(pos := to)))
    else
      s.squares
  }

  /** The state object of the piece standing on `from`, if any. */
  function Mover(g: Grid, from: Position): set<object> {
    if from.OnBoard() && CellAt(g, from).Some? then {CellAt(g, from).value.data.State()} else {}
  }

  /** `Board::apply_move`: take the piece off `from`; if there was none, stop.
      Ask it for its legal moves; if `to` is not among them, put it back and
      stop. Otherwise run its `on_move`, set its position to `to` and place it
      there, over whatever stood there. The side to move is never written. */
  method ApplyMove(board: Board, from: Position, to: Position, exclude: Filter)
    requires board.Valid()
    modifies board.squares, Mover(board.Grid(), from)
    ensures board.Valid() && board.turn == old(board.turn)
    ensures board.Grid() == Applied(old(board.View()), from, to, exclude)
    ensures old(from.OnBoard() && CellAt(board.Grid(), from).Some?) ==>
      var data := old(CellAt(board.Grid(), from).value.data);
      data.HasMoved() == (old(data.HasMoved()) || Accepted(old(board.View()), from, to, exclude))
  {
    ghost var s := board.View();
    var taken := board.Take(from);
    if taken.None? {
      if from.OnBoard() {
        WithCellSame(s.squares, from);
      }
      return;
    }
    var piece := taken.value;
    assert board.View() == Lifted(s, from);
    var moves := LegalMoves(piece.data, from, piece.color, board, exclude);
    if to !in moves {
      board.Set(from, Some(piece));
      WithCellTwice(s.squares, from, None, Some(piece));
      WithCellSame(s.squares, from);
      return;
    }
    OnMove(piece.data, from, to, piece.color, board);
    piece := piece.(pos := to);
    board.Set(to, Some(piece));
  }

  // ---- what a move does to the board ----

  /** A move from an empty or off-board square changes nothing. */
  lemma FromEmptyChangesNothing(s: Snapshot, from: Position, to: Position, exclude: Filter)
    requires !from.OnBoard() || CellAt(s.squares, from).None?
    ensures Applied(s, from, to, exclude) == s.squares
  {
  }

  /** A rejected move leaves every cell as it was. */
  lemma RejectedChangesNothing(s: Snapshot, from: Position, to: Position, exclude: Filter)
    requires !Accepted(s, from, to, exclude)
    ensures Applied(s, from, to, exclude) == s.squares
  {
  }

  /** A committed move empties `from`, puts the mover with its position set
      to `to` on `to` (a previous occupant is gone), and leaves every other
      cell as it was. */
  lemma AcceptedEffects(s: Snapshot, from: Position, to: Position, exclude: Filter)
    requires Accepted(s, from, to, exclude)
    ensures var piece := CellAt(s.squares, from).value;
      var g := Applied(s, from, to, exclude);
      (to.OnBoard() ==> CellAt(g, to) == Some(piece.(pos := to))) &&
      (from != to ==> CellAt(g, from) == None)
    ensures forall q: Position | q.OnBoard() && q != from && q != to ::
      CellAt(Applied(s, from, to, exclude), q) == CellAt(s.squares, q)
  {
  }

  /** With a filter that only drops moves, a committed queen or knight move
      goes to a different on-board square that the mover's own colour does
      not hold: along a queen line for a queen, an L-jump for a knight. */
  lemma AcceptedTargets(s: Snapshot, from: Position, to: Position, exclude: Filter)
    requires Accepted(s, from, to, exclude)
    requires OnlyRemoves(exclude, Lifted(s, from))
    ensures var piece := CellAt(s.squares, from).value;
      to.OnBoard() && to != from && !FriendlyAt(s.squares, to, piece.color) &&
      (piece.data.QueenBox? ==> QueenRules.OnQueenLine(from, to)) &&
      (piece.data.KnightBox? ==> KnightRules.IsLJump(to.col - from.col, to.row - from.row))
  {
    var piece := CellAt(s.squares, from).value;
    var l := Lifted(s, from);
    var raw := RawMoves(piece.data, from, piece.color, l.squares);
    assert to in raw;
    match piece.data
    case QueenBox(_) =>
      QueenRules.RawCandidates(l.squares, from, piece.color);
    case KnightBox(_) =>
      KnightRules.RawCandidates(l.squares, from, piece.color, to);
  }
}
