/** A piece and the per-variant movement state it owns (src/piece.rs, and the
    `QueenData` / `KnightData` structs of src/piece/queen.rs and
    src/piece/knight.rs). The boxed trait object becomes a tagged union over
    the two variants modelled here. */
module Pieces {
  import opened Types

  /** `QueenData`: the queen's movement state, updated in place by `moved`. */
  class QueenData {
    var hasMoved: bool

    constructor (hasMoved: bool)
      ensures this.hasMoved == hasMoved
    {
      this.hasMoved := hasMoved;
    }

    /** `QueenData::moved` */
    method Moved()
      modifies this
      ensures hasMoved
    {
      hasMoved := true;
    }
  }

  /** `KnightData`: the knight's movement state, updated in place by `moved`. */
  class KnightData {
    var hasMoved: bool

    constructor (hasMoved: bool)
      ensures this.hasMoved == hasMoved
    {
      this.hasMoved := hasMoved;
    }

    /** `KnightData::moved` */
    method Moved()
      modifies this
      ensures hasMoved
    {
      hasMoved := true;
    }
  }

  /** `Box<dyn PieceData>` restricted to the variants of this model. */
  datatype Data = QueenBox(queen: QueenData) | KnightBox(knight: KnightData) {

    /** The object holding the variant's mutable state. */
    function State(): object {
      match this
      case QueenBox(q) => q
      case KnightBox(k) => k
    }

    function HasMoved(): bool
      reads State()
    {
      match this
      case QueenBox(q) => q.hasMoved
      case KnightBox(k) => k.hasMoved
    }
  }

  /** `Piece { name, color, pos, data }` */
  datatype Piece = Piece(name: Name, color: Color, pos: Position, data: Data)
}
