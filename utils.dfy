/** The two candidate generators shared by the pieces (src/utils.rs):
    `sliding_moves` casts rays, `step_moves` tries fixed offsets. Both only
    read the board. Each method is proved equal to a specification function
    on the board's grid, and the lemmas below state what those functions
    promise. */
module Utils {
  import opened Types
  import opened Pieces
  import opened Boards

  type Delta = (int, int)

  // ---- sliding_moves ----

  /** The ray along `(dx, dy)` from `from` ends. The one case in which the
      source's loop runs forever is the zero direction from an empty on-board
      square, which keeps landing on that same square. */
  predicate Halts(g: Grid, from: Position, dx: int, dy: int) {
    dx != 0 || dy != 0 || !from.OnBoard() || !EmptyAt(g, from)
  }

  predicate AllHalt(g: Grid, from: Position, dirs: seq<Delta>) {
    forall i | 0 <= i < |dirs| :: Halts(g, from, dirs[i].0, dirs[i].1)
  }

  /** A bound on the number of squares a ray along `(dx, dy)` can still visit
      after `p`: the distance to the edge it is heading for. */
  function Reach(p: Position, dx: int, dy: int): int {
    if dy > 0 then 8 - p.row
    else if dy < 0 then p.row + 1
    else if dx > 0 then 8 - p.col
    else if dx < 0 then p.col + 1
    else 0
  }

  /** One ray of `sliding_moves`: the squares after `cur` along `(dx, dy)`,
      up to and including the first enemy, stopping before a friendly piece
      or the edge. */
  function Walk(g: Grid, cur: Position, dx: int, dy: int, color: Color): (w: seq<Position>)
    requires Halts(g, cur, dx, dy)
    ensures forall k | 0 <= k < |w| :: w[k].OnBoard()
    decreases Reach(cur, dx, dy)
  {
    match cur.Shifted(dx, dy)
    case None => []
    case Some(next) =>
      if EmptyAt(g, next) then [next] + Walk(g, next, dx, dy, color)
      else if EnemyAt(g, next, color) then [next]
      else []
  }

  /** All rays of `sliding_moves`, in the order of `dirs`. */
  function Sliding(g: Grid, from: Position, dirs: seq<Delta>, color: Color): (ms: seq<Position>)
    requires AllHalt(g, from, dirs)
  {
    if dirs == [] then []
    else
      var d := dirs[|dirs| - 1];
      Sliding(g, from, dirs[..|dirs| - 1], color) + Walk(g, from, d.0, d.1, color)
  }

  /** `sliding_moves`: for each direction, step from `from` while the next
      square is on the board; an empty square is added and the walk goes on,
      an enemy square is added and the walk stops, a friendly square stops
      it without being added. */
  method SlidingMoves(board: Board, from: Position, dirs: seq<Delta>, color: Color)
    returns (moves: seq<Position>)
    requires board.Valid() && AllHalt(board.Grid(), from, dirs)
    ensures moves == Sliding(board.Grid(), from, dirs, color)
  {
    ghost var g := board.Grid();
    moves := [];
    for i := 0 to |dirs|
      invariant moves == Sliding(g, from, dirs[..i], color)
    {
      var (dx, dy) := dirs[i];
      var current := from;
      ghost var done := moves;
      while true
        invariant Halts(g, current, dx, dy)
        invariant done + Walk(g, from, dx, dy, color) == moves + Walk(g, current, dx, dy, color)
        decreases Reach(current, dx, dy)
      {
        var shifted := current.Shifted(dx, dy);
        if shifted.Some? {
          var next := shifted.value;
          if board.IsEmptyCell(next) {
            moves := moves + [next];
            current := next;
            continue;
          }
          if board.IsEnemyCell(next, color) {
            moves := moves + [next];
          }
          break;
        } else {
          break;
        }
      }
      assert dirs[..i + 1][..i] == dirs[..i];
    }
    assert dirs[..|dirs|] == dirs;
  }

  /** The k-th square of a ray (from 0) lies k + 1 steps from its start. */
  lemma {:induction false} WalkShape(g: Grid, cur: Position, dx: int, dy: int, color: Color)
    requires Halts(g, cur, dx, dy)
    ensures forall k | 0 <= k < |Walk(g, cur, dx, dy, color)| ::
      Walk(g, cur, dx, dy, color)[k].row == cur.row + (k + 1) * dy &&
      Walk(g, cur, dx, dy, color)[k].col == cur.col + (k + 1) * dx
    decreases Reach(cur, dx, dy)
  {
    match cur.Shifted(dx, dy)
    case None =>
    case Some(next) =>
      if EmptyAt(g, next) {
        WalkShape(g, next, dx, dy, color);
        var w, rest := Walk(g, cur, dx, dy, color), Walk(g, next, dx, dy, color);
        forall k | 1 <= k < |w|
          ensures w[k].row == cur.row + (k + 1) * dy && w[k].col == cur.col + (k + 1) * dx
        {
          assert w[k] == rest[k - 1];
          var j := k - 1;
          assert 0 <= j < |rest|;
          assert rest[j].row == next.row + (j + 1) * dy && rest[j].col == next.col + (j + 1) * dx;
          assert (k + 1) * dy == k * dy + dy && (k + 1) * dx == k * dx + dx;
        }
      }
  }

  /** The square a ray ended on, or its start when it added nothing. */
  function RayEnd(cur: Position, w: seq<Position>): Position {
    if w == [] then cur else w[|w| - 1]
  }

  /** Every square but the last of a ray is empty and the last is empty or
      an enemy; a ray that did not end on an enemy ended because the next
      square is off the board or holds a friendly piece. */
  lemma {:induction false} WalkStops(g: Grid, cur: Position, dx: int, dy: int, color: Color)
    requires Halts(g, cur, dx, dy)
    ensures var w := Walk(g, cur, dx, dy, color);
      (forall k | 0 <= k < |w| - 1 :: EmptyAt(g, w[k])) &&
      (forall k | 0 <= k < |w| :: EmptyAt(g, w[k]) || EnemyAt(g, w[k], color))
    ensures var w := Walk(g, cur, dx, dy, color);
      var e := RayEnd(cur, w);
      (w == [] || EmptyAt(g, e)) ==>
        match e.Shifted(dx, dy)
        case None => true
        case Some(n) => FriendlyAt(g, n, color)
    decreases Reach(cur, dx, dy)
  {
    match cur.Shifted(dx, dy)
    case None =>
    case Some(next) =>
      if EmptyAt(g, next) {
        WalkStops(g, next, dx, dy, color);
        var w, rest := Walk(g, cur, dx, dy, color), Walk(g, next, dx, dy, color);
        assert forall k | 1 <= k < |w| :: w[k] == rest[k - 1];
        assert RayEnd(cur, w) == RayEnd(next, rest);
      }
  }

  /** A ray strictly advances towards the edge it is heading for, so it never
      returns to its start. */
  lemma {:induction false} WalkAdvances(g: Grid, cur: Position, dx: int, dy: int, color: Color)
    requires Halts(g, cur, dx, dy) && (dx, dy) != (0, 0)
    ensures forall q | q in Walk(g, cur, dx, dy, color) :: Reach(q, dx, dy) < Reach(cur, dx, dy)
    ensures cur !in Walk(g, cur, dx, dy, color)
    decreases Reach(cur, dx, dy)
  {
    match cur.Shifted(dx, dy)
    case None =>
    case Some(next) =>
      if EmptyAt(g, next) {
        WalkAdvances(g, next, dx, dy, color);
      }
  }

  /** From an on-board square a ray along a nonzero direction visits at most
      the squares between it and the edge: never more than 7. */
  lemma {:induction false} WalkBound(g: Grid, cur: Position, dx: int, dy: int, color: Color)
    requires cur.OnBoard() && (dx, dy) != (0, 0)
    ensures |Walk(g, cur, dx, dy, color)| <= Reach(cur, dx, dy) - 1 <= 7
    decreases Reach(cur, dx, dy)
  {
    match cur.Shifted(dx, dy)
    case None =>
    case Some(next) =>
      if EmptyAt(g, next) {
        WalkBound(g, next, dx, dy, color);
      }
  }

  /** On an empty board every ray runs to the edge: all its squares are empty
      and the square after its end is off the board. */
  lemma RayOnEmptyBoard(cur: Position, dx: int, dy: int, color: Color)
    requires (dx, dy) != (0, 0)
    ensures var g: Grid := EmptyGrid();
      var w := Walk(g, cur, dx, dy, color);
      (forall k | 0 <= k < |w| :: EmptyAt(g, w[k])) &&
      RayEnd(cur, w).Shifted(dx, dy) == None
  {
    WalkStops(EmptyGrid(), cur, dx, dy, color);
  }

  /** On an empty board a ray along a unit direction reaches every on-board
      square m >= 1 steps away. */
  lemma {:induction false} EmptyRayReaches(cur: Position, dx: int, dy: int, color: Color, m: nat)
    requires -1 <= dx <= 1 && -1 <= dy <= 1 && (dx, dy) != (0, 0)
    requires cur.OnBoard() && m >= 1 && Position.IsValid(cur.row + m * dy, cur.col + m * dx)
    ensures Position(cur.row + m * dy, cur.col + m * dx) in Walk(EmptyGrid(), cur, dx, dy, color)
    decreases m
  {
    UnitSegment(cur.row, dy, m);
    UnitSegment(cur.col, dx, m);
    var next := Position(cur.row + dy, cur.col + dx);
    EmptyRayStep(cur, dx, dy, color);
    if m > 1 {
      EmptyRayReaches(next, dx, dy, color, m - 1);
    }
  }

  /** On an empty board a ray whose next square is on the board continues
      from that square. */
  lemma EmptyRayStep(cur: Position, dx: int, dy: int, color: Color)
    requires (dx, dy) != (0, 0) && Position.IsValid(cur.row + dy, cur.col + dx)
    ensures Walk(EmptyGrid(), cur, dx, dy, color) ==
      [Position(cur.row + dy, cur.col + dx)] + Walk(EmptyGrid(), Position(cur.row + dy, cur.col + dx), dx, dy, color)
  {
    var g: Grid := EmptyGrid();
    var next := Position(cur.row + dy, cur.col + dx);
    assert cur.Shifted(dx, dy) == Some(next);
    assert EmptyAt(g, next);
  }

  /** The coordinates `j` steps from `cur` along `(dx, dy)`. */
  function Along(cur: Position, dx: int, dy: int, j: int): (int, int) {
    (cur.row + j * dy, cur.col + j * dx)
  }

  /** The coordinates name an on-board square that holds no piece. */
  predicate EmptySquare(g: Grid, rc: (int, int)) {
    Position.IsValid(rc.0, rc.1) && EmptyAt(g, Position(rc.0, rc.1))
  }

  /** Every square strictly between `cur` and the square `m` steps along
      `(dx, dy)` is on the board and empty. */
  predicate Clear(g: Grid, cur: Position, dx: int, dy: int, m: int) {
    forall j | 0 < j < m :: EmptySquare(g, Along(cur, dx, dy, j))
  }

  /** A ray never passes a piece: every square before its k-th is empty. */
  lemma WalkClear(g: Grid, cur: Position, dx: int, dy: int, color: Color, k: int)
    requires Halts(g, cur, dx, dy)
    requires 0 <= k < |Walk(g, cur, dx, dy, color)|
    ensures Clear(g, cur, dx, dy, k + 1)
  {
    var w := Walk(g, cur, dx, dy, color);
    assert forall i | 0 <= i < |w| - 1 :: EmptyAt(g, w[i]) by {
      WalkStops(g, cur, dx, dy, color);
    }
    assert forall i | 0 <= i < |w| :: Along(cur, dx, dy, i + 1) == (w[i].row, w[i].col) by {
      WalkShape(g, cur, dx, dy, color);
    }
    forall j | 0 < j < k + 1
      ensures EmptySquare(g, Along(cur, dx, dy, j))
    {
      var i := j - 1;
      assert Along(cur, dx, dy, i + 1) == (w[i].row, w[i].col);
      assert EmptyAt(g, w[i]);
    }
  }

  /** On any board a ray along a unit direction reaches the square `m >= 1`
      steps away when every square before it is empty and the mover's own
      colour does not hold it. */
  lemma {:induction false} RayReaches(g: Grid, cur: Position, dx: int, dy: int, color: Color, m: nat)
    requires -1 <= dx <= 1 && -1 <= dy <= 1 && (dx, dy) != (0, 0)
    requires cur.OnBoard() && m >= 1 && Position.IsValid(cur.row + m * dy, cur.col + m * dx)
    requires Clear(g, cur, dx, dy, m)
    requires !FriendlyAt(g, Position(cur.row + m * dy, cur.col + m * dx), color)
    ensures Position(cur.row + m * dy, cur.col + m * dx) in Walk(g, cur, dx, dy, color)
    decreases m
  {
    UnitSegment(cur.row, dy, m);
    UnitSegment(cur.col, dx, m);
    var next := Position(cur.row + dy, cur.col + dx);
    assert cur.Shifted(dx, dy) == Some(next);
    if m > 1 {
      ClearShift(g, cur, dx, dy, m);
      assert Walk(g, cur, dx, dy, color) == [next] + Walk(g, next, dx, dy, color);
      RayReaches(g, next, dx, dy, color, m - 1);
    }
  }

  /** A clear path of `m > 1` squares starts with an empty square, and the
      rest of it is a clear path of `m - 1` squares from there. */
  lemma ClearShift(g: Grid, cur: Position, dx: int, dy: int, m: int)
    requires -1 <= dx <= 1 && -1 <= dy <= 1 && m > 1
    requires Clear(g, cur, dx, dy, m)
    ensures Position.IsValid(cur.row + dy, cur.col + dx)
    ensures Position.IsValid(cur.row + dy, cur.col + dx) &&
      EmptyAt(g, Position(cur.row + dy, cur.col + dx))
    ensures Position.IsValid(cur.row + dy, cur.col + dx) &&
      Clear(g, Position(cur.row + dy, cur.col + dx), dx, dy, m - 1)
  {
    assert Along(cur, dx, dy, 1) == (cur.row + dy, cur.col + dx);
    assert EmptySquare(g, Along(cur, dx, dy, 1));
    var next := Position(cur.row + dy, cur.col + dx);
    forall j | 0 < j < m - 1
      ensures EmptySquare(g, Along(next, dx, dy, j))
    {
      AlongNext(cur, dx, dy, j);
      assert EmptySquare(g, Along(cur, dx, dy, j + 1));
    }
  }

  /** `j` steps from the square after `cur` are `j + 1` steps from `cur`. */
  lemma AlongNext(cur: Position, dx: int, dy: int, j: int)
    requires cur.row + dy >= 0 && cur.col + dx >= 0
    ensures Along(Position(cur.row + dy, cur.col + dx), dx, dy, j) == Along(cur, dx, dy, j + 1)
  {
    assert (j + 1) * dy == j * dy + dy && (j + 1) * dx == j * dx + dx;
  }

  function Abs(x: int): nat {
    if x < 0 then -x else x
  }

  /** Multiplying by a unit component is the identity, zero or negation. */
  lemma UnitTimes(m: int, d: int)
    requires -1 <= d <= 1
    ensures m * d == (if d == 0 then 0 else if d == 1 then m else -m)
  {
  }

  /** One coordinate of a ray along a unit component: if `a` and the point
      `m` steps on are on the board, so is the point one step on, and the
      rest of the segment is `m - 1` steps from there. */
  lemma UnitSegment(a: int, d: int, m: int)
    requires -1 <= d <= 1 && m >= 1 && 0 <= a < 8 && 0 <= a + m * d < 8
    ensures 0 <= a + d < 8
    ensures a + m * d == (a + d) + (m - 1) * d
    ensures m == 1 ==> a + m * d == a + d
  {
    UnitTimes(m, d);
    UnitTimes(m - 1, d);
  }

  /** A square is a sliding candidate exactly when it lies on the ray of one
      of the directions. */
  lemma {:induction false} SlidingMember(g: Grid, from: Position, dirs: seq<Delta>, color: Color, q: Position)
    requires AllHalt(g, from, dirs)
    ensures q in Sliding(g, from, dirs, color) <==>
      exists i | 0 <= i < |dirs| :: q in Walk(g, from, dirs[i].0, dirs[i].1, color)
  {
    if dirs != [] {
      var n := |dirs| - 1;
      SlidingMember(g, from, dirs[..n], color, q);
      if q in Walk(g, from, dirs[n].0, dirs[n].1, color) {
        assert q in Sliding(g, from, dirs, color);
      }
      if i :| 0 <= i < n && q in Walk(g, from, dirs[i].0, dirs[i].1, color) {
        assert dirs[..n][i] == dirs[i];
      }
    }
  }

  // ---- step_moves ----

  /** What one offset of `step_moves` contributes: the target if it is on
      the board and empty or enemy-held, nothing otherwise. */
  function Target(g: Grid, from: Position, d: Delta, color: Color): (t: seq<Position>)
    ensures |t| <= 1
  {
    match from.Shifted(d.0, d.1)
    case None => []
    case Some(to) => if EmptyAt(g, to) || EnemyAt(g, to, color) then [to] else []
  }

  /** All targets of `step_moves`, in the order of `deltas`. */
  function Steps(g: Grid, from: Position, deltas: seq<Delta>, color: Color): (ms: seq<Position>)
  {
    if deltas == [] then []
    else Steps(g, from, deltas[..|deltas| - 1], color) + Target(g, from, deltas[|deltas| - 1], color)
  }

  /** `step_moves`: for each offset, keep the shifted square when it is on
      the board and either empty or enemy-held. */
  method StepMoves(board: Board, from: Position, deltas: seq<Delta>, color: Color)
    returns (moves: seq<Position>)
    requires board.Valid()
    ensures moves == Steps(board.Grid(), from, deltas, color)
  {
    ghost var g := board.Grid();
    moves := [];
    for i := 0 to |deltas|
      invariant moves == Steps(g, from, deltas[..i], color)
    {
      var (dx, dy) := deltas[i];
      var shifted := from.Shifted(dx, dy);
      if shifted.Some? {
        var to := shifted.value;
        if board.IsEmptyCell(to) || board.IsEnemyCell(to, color) {
          moves := moves + [to];
        }
      }
      assert deltas[..i + 1][..i] == deltas[..i];
    }
    assert deltas[..|deltas|] == deltas;
  }

  /** Soundness and completeness of `step_moves`: a square is a candidate
      exactly when some offset shifts `from` onto it and it is empty or
      enemy-held. A friendly-held square is never a candidate. */
  lemma {:induction false} StepsMember(g: Grid, from: Position, deltas: seq<Delta>, color: Color, t: Position)
    ensures t in Steps(g, from, deltas, color) <==>
      exists i | 0 <= i < |deltas| :: from.Shifted(deltas[i].0, deltas[i].1) == Some(t) &&
        (EmptyAt(g, t) || EnemyAt(g, t, color))
  {
    if deltas != [] {
      var n := |deltas| - 1;
      StepsMember(g, from, deltas[..n], color, t);
      if t in Target(g, from, deltas[n], color) {
        assert t in Steps(g, from, deltas, color);
      }
      if i :| 0 <= i < n && from.Shifted(deltas[i].0, deltas[i].1) == Some(t) && (EmptyAt(g, t) || EnemyAt(g, t, color)) {
        assert deltas[..n][i] == deltas[i];
      }
    }
  }

  /** Candidates come out in the order of the offsets: the targets of a
      concatenation are the concatenation of the targets. */
  lemma {:induction false} StepsAppend(g: Grid, from: Position, a: seq<Delta>, b: seq<Delta>, color: Color)
    ensures Steps(g, from, a + b, color) == Steps(g, from, a, color) + Steps(g, from, b, color)
  {
    if b == [] {
      assert a + b == a;
    } else {
      var n := |b| - 1;
      assert (a + b)[..|a + b| - 1] == a + b[..n];
      StepsAppend(g, from, a, b[..n], color);
    }
  }

  /** Extending the offsets by one extends the candidates by that offset's target. */
  lemma StepsPrefix(g: Grid, from: Position, deltas: seq<Delta>, k: nat, color: Color)
    requires k < |deltas|
    ensures Steps(g, from, deltas[..k + 1], color) == Steps(g, from, deltas[..k], color) + Target(g, from, deltas[k], color)
  {
    assert deltas[..k + 1][..k] == deltas[..k];
  }

  /** At most one candidate per offset. */
  lemma {:induction false} StepsLength(g: Grid, from: Position, deltas: seq<Delta>, color: Color)
    ensures |Steps(g, from, deltas, color)| <= |deltas|
  {
    if deltas != [] {
      StepsLength(g, from, deltas[..|deltas| - 1], color);
    }
  }
}
