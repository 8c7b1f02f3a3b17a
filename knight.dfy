/** The knight (src/piece/knight.rs): eight fixed L-shaped offsets, legal
    moves as the king-exposure filter applied to the stepping candidates,
    and the has-moved flag. */
module KnightRules {
  import opened Types
  import opened Pieces
  import opened Boards
  import opened Utils

  /** `STEPS`: the eight L-shaped offsets, as (dx, dy). */
  const STEPS: seq<Delta> := [(2, 1), (2, -1), (-2, 1), (-2, -1), (1, 2), (1, -2), (-1, 2), (-1, -2)]

  /** One coordinate changes by 1 and the other by 2. */
  predicate IsLJump(dx: int, dy: int) {
    (Abs(dx) == 1 && Abs(dy) == 2) || (Abs(dx) == 2 && Abs(dy) == 1)
  }

  /** `STEPS` holds each L-shaped offset exactly once. */
  lemma StepsAreLJumps()
    ensures |STEPS| == 8
    ensures forall d: Delta :: d in STEPS <==> IsLJump(d.0, d.1)
    ensures forall i, j | 0 <= i < j < |STEPS| :: STEPS[i] != STEPS[j]
  {
  }

  /** The knight's raw candidates: the stepping targets of `STEPS`. */
  function Raw(g: Grid, pos: Position, color: Color): seq<Position> {
    Steps(g, pos, STEPS, color)
  }

  /** `KnightData::legal_moves`: the king-exposure filter applied to the
      stepping candidates of `STEPS`. Nothing is written. */
  method LegalMoves(data: KnightData, pos: Position, color: Color, board: Board, exclude: Filter)
    returns (moves: seq<Position>)
    requires board.Valid()
    ensures moves == exclude(Raw(board.Grid(), pos, color), pos, color, board.View())
  {
    moves := StepMoves(board, pos, STEPS, color);
    moves := exclude(moves, pos, color, board.View());
  }

  /** `KnightData::on_move`: whatever the move, the knight has now moved. The
      board it is handed is left alone. The new state does not depend on the
      old one, so a second call changes nothing. */
  method OnMove(data: KnightData, from: Position, to: Position, color: Color, board: Board)
    modifies data
    ensures data.hasMoved
  {
    data.Moved();
  }

  /** `knight::new` */
  method New(pos: Position, color: Color) returns (p: Piece)
    ensures p.name == Name.Knight && p.color == color && p.pos == pos
    ensures p.data.KnightBox? && fresh(p.data.knight) && !p.data.knight.hasMoved
  {
    var data := new KnightData(false);
    p := Piece(Name.Knight, color, pos, KnightBox(data));
  }

  /** A square is a raw knight candidate exactly when it is on the board, an
      L-jump away, and not held by the knight's own colour; so enemy-held
      targets are kept and off-board ones dropped. There are at most 8. */
  lemma RawCandidates(g: Grid, pos: Position, color: Color, q: Position)
    ensures q in Raw(g, pos, color) <==>
      q.OnBoard() && IsLJump(q.col - pos.col, q.row - pos.row) && !FriendlyAt(g, q, color)
    ensures |Raw(g, pos, color)| <= 8
  {
    StepsLength(g, pos, STEPS, color);
    StepsMember(g, pos, STEPS, color, q);
    if q.OnBoard() && IsLJump(q.col - pos.col, q.row - pos.row) && !FriendlyAt(g, q, color) {
      var i := StepIndex(q.col - pos.col, q.row - pos.row);
      assert pos.Shifted(STEPS[i].0, STEPS[i].1) == Some(q);
    }
    if q in Raw(g, pos, color) {
      var i :| 0 <= i < |STEPS| && pos.Shifted(STEPS[i].0, STEPS[i].1) == Some(q) &&
        (EmptyAt(g, q) || EnemyAt(g, q, color));
      StepIsLJump(i);
    }
  }

  /** Where an L-jump sits in `STEPS`. */
  lemma StepIndex(dx: int, dy: int) returns (i: nat)
    requires IsLJump(dx, dy)
    ensures i < |STEPS| && STEPS[i] == (dx, dy)
  {
    StepsAreLJumps();
    assert (dx, dy) in STEPS;
    i :| 0 <= i < |STEPS| && STEPS[i] == (dx, dy);
  }

  /** Each entry of `STEPS` is an L-jump. */
  lemma StepIsLJump(i: int)
    requires 0 <= i < |STEPS|
    ensures IsLJump(STEPS[i].0, STEPS[i].1)
  {
    StepsAreLJumps();
    assert STEPS[i] in STEPS;
  }

  /** A knight on (3,3) of an empty board reaches all eight targets, in the
      order of `STEPS`. */
  lemma CentreOfEmptyBoard(color: Color)
    ensures Raw(EmptyGrid(), Position(3, 3), color) ==
      [Position(4, 5), Position(2, 5), Position(4, 1), Position(2, 1),
       Position(5, 4), Position(1, 4), Position(5, 2), Position(1, 2)]
  {
    OffsetsOneByOne(EmptyGrid(), Position(3, 3), color);
  }

  /** A knight in the corner (0,0) of an empty board keeps only the two
      targets that stay on the board. */
  lemma CornerOfEmptyBoard(color: Color)
    ensures Raw(EmptyGrid(), Position(0, 0), color) == [Position(1, 2), Position(2, 1)]
  {
    OffsetsOneByOne(EmptyGrid(), Position(0, 0), color);
  }

  /** The candidates are the targets of the eight offsets, one after another. */
  lemma OffsetsOneByOne(g: Grid, pos: Position, color: Color)
    ensures Raw(g, pos, color) ==
      Target(g, pos, STEPS[0], color) + Target(g, pos, STEPS[1], color) +
      Target(g, pos, STEPS[2], color) + Target(g, pos, STEPS[3], color) +
      Target(g, pos, STEPS[4], color) + Target(g, pos, STEPS[5], color) +
      Target(g, pos, STEPS[6], color) + Target(g, pos, STEPS[7], color)
  {
    EightOffsets(g, pos, STEPS, color);
  }

  lemma EightOffsets(g: Grid, pos: Position, ds: seq<Delta>, color: Color)
    requires |ds| == 8
    ensures Steps(g, pos, ds, color) ==
      Target(g, pos, ds[0], color) + Target(g, pos, ds[1], color) +
      Target(g, pos, ds[2], color) + Target(g, pos, ds[3], color) +
      Target(g, pos, ds[4], color) + Target(g, pos, ds[5], color) +
      Target(g, pos, ds[6], color) + Target(g, pos, ds[7], color)
  {
    var lo, hi := ds[..4], ds[4..];
    assert ds == lo + hi;
    assert lo[0] == ds[0] && lo[1] == ds[1] && lo[2] == ds[2] && lo[3] == ds[3];
    assert hi[0] == ds[4] && hi[1] == ds[5] && hi[2] == ds[6] && hi[3] == ds[7];
    StepsAppend(g, pos, lo, hi, color);
    FourOffsets(g, pos, lo, color);
    FourOffsets(g, pos, hi, color);
  }

  lemma FourOffsets(g: Grid, pos: Position, ds: seq<Delta>, color: Color)
    requires |ds| == 4
    ensures Steps(g, pos, ds, color) ==
      Target(g, pos, ds[0], color) + Target(g, pos, ds[1], color) +
      Target(g, pos, ds[2], color) + Target(g, pos, ds[3], color)
  {
    assert ds[..0] == [];
    StepsPrefix(g, pos, ds, 0, color);
    StepsPrefix(g, pos, ds, 1, color);
    StepsPrefix(g, pos, ds, 2, color);
    StepsPrefix(g, pos, ds, 3, color);
    assert ds[..4] == ds;
  }
}
