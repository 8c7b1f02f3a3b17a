# chess-rs move generation and board mutation, in Dafny

This project models the core of a small chess rules engine written in Rust:
the squares and their bounds check, the two candidate generators every piece
builds on (ray casting for sliding pieces, fixed offsets for stepping pieces),
the queen and the knight, and the board's 8x8 grid with `set`, `take` and
`apply_move`.

Layout, one module per source file:

- `types.dfy`, module `Types` (src/types.rs): `Color`, `Name`, `Position`,
  `Position.IsValid`, `Position.Shifted`.
- `pieces.dfy`, module `Pieces` (src/piece.rs and the data structs of
  src/piece/queen.rs, src/piece/knight.rs): `Piece`, and `Data`, a tagged union
  standing for `Box<dyn PieceData>`. `QueenData` and `KnightData` are classes
  because `moved` sets `has_moved` in place.
- `board.dfy`, module `Boards` (src/board.rs): the class `Board` holds an
  8x8 `array2` and `turn`, with methods `Set` and `Take`. `Grid` is the same
  64 cells as a value. The generators' specifications and the king-exposure
  filter use it.
- `utils.dfy`, module `Utils` (src/utils.rs): the methods `SlidingMoves` and
  `StepMoves` keep the source's loops. Each is proved equal to a
  specification function (`Sliding`, `Steps`), and lemmas state what those
  functions promise.
- `queen.dfy`, `knight.dfy`, modules `QueenRules` and `KnightRules`: the
  direction and offset tables, `LegalMoves`, `OnMove` and `New`.
- `moves.dfy`, module `Moves` (src/board.rs): dispatch on the variant, and
  `ApplyMove`. In the source `apply_move` is a method of `Board`. Here it is a
  method that takes the board, because it needs the piece rules, and those
  need the board. Dafny modules cannot depend on each other in a cycle.

`ApplyMove` is proved against `Applied`, a function from the old board to
the new cells, and lemmas about `Applied` state what a move does.

`apply_move` (src/board.rs:25-43) never writes `turn`, so a move does not
pass the turn to the other side. The model keeps this: `ApplyMove` cannot
modify the board object's fields.

## Model

| member | source | states |
|---|---|---|
| Types.DefaultColor | src/types.rs:1-6 | The default colour is White. |
| Types.Position.IsValid | src/types.rs:20-22 | Both coordinates lie in 0..8. `SquaresAreTheBoard` proves that this accepts exactly the 64 listed squares. |
| Types.SquaresAreTheBoard | src/types.rs:20-22 | `is_valid` accepts exactly the 64 squares (row, col) with both in 0..8, listed row by row. |
| Types.SquaresDistinct | src/types.rs:20-22 | Those 64 squares are pairwise different. |
| Types.Position.Shifted | src/types.rs:24-36 | The result is present exactly when (row + dy, col + dx) is on the board. It then has row + dy and col + dx, so dy moves rows and dx moves columns, and it is itself on the board. |
| Types.ShiftedZero | src/types.rs:24-36 | Shifting an on-board square by (0, 0) gives the square back. |
| Types.ShiftedInverse | src/types.rs:24-36 | After a successful shift by (dx, dy), shifting by (-dx, -dy) returns the original square. |
| Types.AsI8 | src/types.rs:25-26 | `n as i8` lies in -128..128, is congruent to n modulo 256, and equals n below 128. |
| Types.ShiftedAsWritten | src/types.rs:24-36 | `shifted` with the `as i8` truncation: any result is on the board. |
| Types.ShiftedAsWrittenWraps | src/types.rs:25-26 | Row 250 shifted by 7 rows gives (1, 0) as written, and nothing in the corrected model. |
| Types.ShiftedAsWrittenAgrees | src/types.rs:24-36 | When row and column are below 128, the truncating and the corrected definitions agree. |
| Boards.WithCell | src/board.rs:11-16 | Writing a cell at an on-board square sets exactly that cell. Every other cell keeps its value. An off-board write changes nothing. |
| Boards.WithCellTwice | src/board.rs:11-16 | A second write to the same square overrides the first. |
| Boards.WithCellSame | src/board.rs:31-36 | Putting back what a cell held restores the board exactly. |
| Boards.SetThenTake | src/board.rs:11-23 | After `set(p, Some(x))`, `take(p)` returns `Some(x)` and leaves p empty. The board is then as if only `take` had run. |
| Boards.Board.constructor | src/board.rs:4-8 | `Board::default()`: all 64 cells empty, and White to move. |
| Boards.Board.Set | src/board.rs:11-16 | The new cells are the old ones with p's cell replaced, or unchanged for an off-board p. `turn` is not written. |
| Boards.Board.Take | src/board.rs:18-23 | Returns the previous occupant of an on-board p and leaves that cell empty, with the other cells unchanged. For an off-board p it returns None and changes nothing. |
| Boards.Board.IsEmptyCell | src/utils.rs:12 | The board's emptiness query agrees with the cell of the grid value. |
| Boards.Board.IsEnemyCell | src/utils.rs:17 | The board's enemy query agrees with the cell of the grid value. |
| Boards.SetGuardAsWritten | src/board.rs:11-23 | The guard of `set` and `take` as written: `is_valid` of the coordinates truncated by `as i8`. |
| Boards.SetGuardAdmitsOffBoard | src/board.rs:12 | The guard as written accepts row 256, column 3: the truncation gives (0, 3), which is off board as a position. |
| Boards.SetGuardAgrees | src/board.rs:19 | For coordinates below 128 the guard as written is the bounds check. |
| Utils.Walk | src/utils.rs:10-24 | Every square a ray adds is on the board. |
| Utils.SlidingMoves | src/utils.rs:4-28 | The loop returns `Sliding`: the rays of all directions, concatenated in the order of the directions, and reads the board only. It requires only what makes the source's loop end: no zero direction from an empty on-board origin. |
| Utils.WalkShape | src/utils.rs:10-16 | The k-th square of a ray (counting from 0) is from + (k + 1)·(dx, dy). The ray's squares are consecutive. |
| Utils.WalkStops | src/utils.rs:11-23 | Every square of a ray except the last is empty, and the last is empty or enemy-held. A ray that did not end on an enemy stopped at the board edge or in front of a friendly piece. |
| Utils.WalkAdvances | src/utils.rs:11-16 | A ray along a nonzero direction moves strictly towards the edge, so it never returns `from`. |
| Utils.WalkBound | src/utils.rs:10-16 | From an on-board square, a ray along a nonzero direction adds at most the squares up to the edge, at most 7. |
| Utils.RayOnEmptyBoard | src/utils.rs:11-16 | On an empty board every ray's squares are empty, and the square after its end is off the board: the ray runs to the edge. |
| Utils.EmptyRayReaches | src/utils.rs:11-16 | On an empty board a ray along a unit direction reaches every on-board square m >= 1 steps away. |
| Utils.WalkClear | src/utils.rs:11-20 | A ray never passes over a piece: every square strictly between its start and any of its squares is on the board and empty. |
| Utils.RayReaches | src/utils.rs:11-20 | On any board, a ray along a unit direction reaches the square m >= 1 steps away when every square before it is empty and the mover's colour does not hold it. |
| Utils.SlidingMember | src/utils.rs:7-25 | A square is a sliding candidate exactly when it lies on the ray of one of the directions. |
| Utils.Target | src/utils.rs:34-37 | Each offset contributes at most one square. |
| Utils.StepMoves | src/utils.rs:30-42 | The loop returns `Steps`: the good targets in the order of the offsets. It reads the board only. |
| Utils.StepsMember | src/utils.rs:33-38 | A square is a stepping candidate exactly when some offset shifts `from` onto it and it is empty or enemy-held. So every good target is included, and no friendly-held or off-board square is. |
| Utils.StepsAppend | src/utils.rs:33-39 | The candidates of concatenated offset lists are the concatenated candidates: results come out in offset order. |
| Utils.StepsLength | src/utils.rs:33-39 | There are at most as many candidates as offsets. |
| Utils.StepsPrefix | src/utils.rs:33-39 | Each loop iteration appends exactly the target of its offset. |
| QueenRules.DirsAreUnitVectors | src/piece/queen.rs:8-17 | `DIRS` holds each of the 8 nonzero vectors with components in {-1, 0, 1} exactly once. |
| QueenRules.DirsHalt | src/piece/queen.rs:8-17 | No queen direction is zero, so every queen ray ends. |
| QueenRules.LegalMoves | src/piece/queen.rs:29-33 | Returns the king-exposure filter applied to the sliding candidates along `DIRS`, and reads the board only. |
| QueenRules.OnMove | src/piece/queen.rs:35-37 | Afterwards `has_moved` is true, whatever `from` and `to` are. Nothing else changes, not even the board it is handed. The result does not depend on the old state, so the call is idempotent. |
| Pieces.QueenData.Moved | src/piece/queen.rs:41-43 | Sets `has_moved` and changes nothing else. |
| QueenRules.New | src/piece/queen.rs:46-55 | A `Queen` of the given colour and position with a fresh state whose `has_moved` is false. |
| QueenRules.RayOnLine | src/piece/queen.rs:8-17 | A square on a ray along a unit direction is on the same row, column or diagonal as the start. It is not the start and not held by the mover's colour. |
| QueenRules.RawCandidates | src/piece/queen.rs:30 | Every raw queen candidate is on the board, is not the queen's own square, lies on the queen's row, column or a diagonal, and is not held by the queen's colour. |
| QueenRules.RawOnEmptyBoard | src/piece/queen.rs:30 | On an empty board, the raw queen candidates are exactly the other on-board squares of its row, column and diagonals. |
| QueenRules.RawExactly | src/piece/queen.rs:30 | On any board, a square is a raw queen candidate exactly when it is on the board, is not her square, lies on her row, column or a diagonal, is not held by her colour, and every square strictly between is empty. So she captures the first enemy on a line and never jumps. |
| QueenRules.RawIsClear | src/piece/queen.rs:30 | The path from the queen to each raw candidate is clear. |
| QueenRules.ClearIsRaw | src/piece/queen.rs:30 | Every square on a queen line with a clear path that her colour does not hold is a raw candidate. |
| KnightRules.StepsAreLJumps | src/piece/knight.rs:8-13 | `STEPS` holds each vector whose absolute components are {1, 2}, in some order, exactly once. |
| KnightRules.LegalMoves | src/piece/knight.rs:24-28 | Returns the king-exposure filter applied to the stepping candidates of `STEPS`, and reads the board only. |
| KnightRules.OnMove | src/piece/knight.rs:30-32 | Afterwards `has_moved` is true whatever the move. Nothing else changes, and the call is idempotent. |
| Pieces.KnightData.Moved | src/piece/knight.rs:36-38 | Sets `has_moved` and changes nothing else. |
| KnightRules.New | src/piece/knight.rs:41-50 | A `Knight` of the given colour and position with a fresh state whose `has_moved` is false. |
| KnightRules.RawCandidates | src/piece/knight.rs:25 | A square is a raw knight candidate exactly when it is on the board, an L-jump away, and not held by the knight's colour. Enemy-held targets are included and off-board ones dropped. There are at most 8. |
| KnightRules.OffsetsOneByOne | src/piece/knight.rs:25 | The raw candidates are the targets of the eight offsets, one after another. |
| KnightRules.CentreOfEmptyBoard | src/piece/knight.rs:25 | A knight on (3,3) of an empty board gets all 8 targets, in table order. |
| KnightRules.CornerOfEmptyBoard | src/piece/knight.rs:25 | A knight on (0,0) of an empty board keeps only (1,2) and (2,1). |
| Moves.LegalMoves | src/board.rs:32 | Dispatch on the variant returns that variant's filtered candidates, computed on the board as it is. |
| Moves.OnMove | src/board.rs:39 | Dispatch on the variant leaves that variant's `has_moved` true. |
| Moves.ApplyMove | src/board.rs:25-43 | The new cells are `Applied` of the old board. The mover's `has_moved` becomes true exactly when the move commits. `turn` is never written. |
| Moves.FromEmptyChangesNothing | src/board.rs:26-29 | A move from an empty or off-board square leaves every cell as it was. |
| Moves.RejectedChangesNothing | src/board.rs:31-36 | A move whose target is not among the legal moves, computed with the mover lifted, leaves every cell as it was. |
| Moves.AcceptedEffects | src/board.rs:39-42 | A committed move empties `from` and puts the mover, with `pos == to`, on `to`, discarding any previous occupant. Every other cell is unchanged. |
| Moves.AcceptedTargets | src/board.rs:32-33 | With a filter that only drops moves, a committed queen or knight move goes to another on-board square not held by the mover's colour. For a queen it is on a queen line, for a knight an L-jump away. |

## Left out

- `exclude_king_exposure` is defined on `Board` elsewhere in the crate and not modelled. It becomes `Filter`, an uninterpreted function parameter. It sees the move list, the square, the colour and a `Snapshot` of the cells and `turn`, but not the `has_moved` flags, which live in the pieces' state objects.
- Moves.AcceptedTargets: holds only under `OnlyRemoves`, the assumption that the filter drops moves and never adds any. Its definition is not modelled, so this stays an assumption.
- `is_empty_cell` and `is_enemy_cell` are defined on `Board` elsewhere in the crate and not modelled. They are assumed to mean "the cell holds no piece" and "the cell holds a piece of the other colour".
- Boards.Board.IsEmptyCell: requires an on-board square. Every caller in the generators passes one. What these methods do off the board is not modelled.
- Check, checkmate, stalemate, en passant and turn flipping are not modelled: `apply_move` (src/board.rs:25-43) does none of them.
- The pawn, king, rook, bishop and ui modules, and the demo in src/main.rs, are not part of this model.
- src/piece.rs: the trait-object plumbing (`as_any`, `as_any_mut`, `box_clone`, `Clone for Box<dyn PieceData>`) and the `Debug` derives are runtime reflection. `Piece` becomes a datatype whose `data` is a tagged union of the two modelled variants.
- Ownership: in Rust each piece's boxed state belongs to exactly one cell. The model does not forbid two cells sharing one state object. `ApplyMove`'s frame speaks of the cells' values and of the mover's state object.
- src/board.rs:39 passes three arguments to `on_move`, while the trait at src/piece.rs:15 takes four. The model uses the four-argument form and passes the mover's colour.
- Types.Position.Shifted: adds on unbounded integers. The source adds `i8` values. From an on-board square only a delta of 121 or more can overflow, since 7 + 121 = 128. A negative delta never overflows, since 0..7 plus -128..-1 stays at or above -128. An overflow panics in debug builds and wraps in release builds. Every table here uses deltas of at most 2. The `as i8` truncation is logged under Findings.
- Utils.SlidingMoves: requires that no direction be (0, 0) from an empty on-board origin. That is exactly the case in which the source's loop never ends.
- The `Board` clone that the filter relies on is not modelled, since the filter is uninterpreted.

## Findings

| source | as written | input that shows it | evidently intended | confidence | as-written member | corrected member |
|---|---|---|---|---|---|---|
| src/types.rs:25-26 | `self.row as i8 + dy` truncates a `usize` coordinate to `i8` before adding | `Position { row: 250, col: 0 }.shifted(0, 7)` returns `Some((1, 0))`, since 250 as i8 is -6 | a square off the board by 250 rows shifted by 7 is still off the board: `None` | medium; not executed | Types.ShiftedAsWritten, Types.ShiftedAsWrittenWraps | Types.Position.Shifted |
| src/board.rs:12, src/board.rs:19 | `set` and `take` check `is_valid(pos.row as i8, pos.col as i8)` and then index the array with the untruncated `usize` | `Position { row: 256, col: 3 }` passes the check (256 as i8 is 0), and `squares[256]` then panics instead of being ignored | an off-board square is silently ignored, as for every other off-board square | medium; not executed | Boards.SetGuardAsWritten, Boards.SetGuardAdmitsOffBoard | Boards.Board.Set, Boards.Board.Take |
