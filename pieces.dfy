/**
 * The value types for a falling piece: a board position and a piece
 * (kind, rotation state, top-left anchor of its 4x4 window). Both are copied
 * by value in the game, so they are datatypes here.
 */
module Pieces {
  import opened Geometry

  datatype Position = Position(x: int, y: int)

  datatype Piece = Piece(kind: PieceKind, rotation: Rotation, pos: Position)
  {
    /** The same piece in rotation state `rot`, shifted by (dx, dy). */
    function Placed(dx: int, dy: int, rot: Rotation): Piece
    {
      Piece(kind, rot, Position(pos.x + dx, pos.y + dy))
    }

    /** The same piece shifted by (dx, dy). */
    function Moved(dx: int, dy: int): Piece
    {
      Placed(dx, dy, rotation)
    }

    /** The same piece with its anchor on row y. */
    function AtRow(y: int): Piece
    {
      this.(pos := Position(pos.x, y))
    }
  }

  /** The rotation state one clockwise quarter-turn on. */
  function NextRotation(rotation: Rotation): Rotation
  {
    (rotation + 1) % 4
  }

  /** A default-constructed position. */
  const DEFAULT_POSITION: Position := Position(0, 0)

  /** A default-constructed piece: kind 0, rotation 0, anchored at (5, 0). */
  const DEFAULT_PIECE: Piece := Piece(0, 0, Position(5, 0))

  /** Column where new pieces appear: half the board width minus half the block size. */
  const SPAWN_X: int := BOARD_WIDTH / 2 - BLOCK_SIZE / 2

  /** A new piece of the given kind, unrotated, with its window starting one row above the board. */
  function SpawnPiece(kind: PieceKind): Piece
  {
    Piece(kind, 0, Position(SPAWN_X, -1))
  }

  /** Board cell (y, x) lies under a filled cell of p's template. */
  predicate Covers(p: Piece, y: int, x: int)
  {
    var r, c := y - p.pos.y, x - p.pos.x;
    0 <= r < 4 && 0 <= c < 4 && Filled(p.kind, p.rotation, r, c)
  }

  /** The letter p puts on board cell (y, x). */
  function SymbolAt(p: Piece, y: int, x: int): char
    requires Covers(p, y, x)
  {
    CellAt(p.kind, p.rotation, y - p.pos.y, x - p.pos.x)
  }

  /** Every filled template cell of p sits in a column inside [0, BOARD_WIDTH). */
  predicate ColumnsInRange(p: Piece)
  {
    forall r: Coord, c: Coord :: Filled(p.kind, p.rotation, r, c) ==> 0 <= p.pos.x + c < BOARD_WIDTH
  }

  /** A spawned piece occupies columns SPAWN_X .. SPAWN_X + 2 only, so all its columns are on the board. */
  lemma SpawnColumnsInRange(kind: PieceKind)
    ensures ColumnsInRange(SpawnPiece(kind))
    ensures SPAWN_X == 5
  {
    forall r: Coord, c: Coord | Filled(kind, 0, r, c)
      ensures 0 <= SPAWN_X + c < BOARD_WIDTH
    {
      SpawnShapeColumns(kind, r, c);
    }
  }
}
