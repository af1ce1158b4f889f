/**
 * Piece geometry: the seven 4x4 tetromino masks, their display symbols and
 * the quarter-turn rotation applied on lookup.
 */
module Geometry {

  const BOARD_HEIGHT: int := 20
  const BOARD_WIDTH: int := 15
  const BLOCK_SIZE: int := 4
  const NUM_BLOCK_TYPES: int := 7

  /** Index of a tetromino shape: I, O, T, S, Z, J, L. */
  type PieceKind = k: int | 0 <= k < 7
  /** A rotation state, in quarter-turns. */
  type Rotation = r: int | 0 <= r < 4
  /** A row or column index inside the 4x4 template window. */
  type Coord = i: int | 0 <= i < 4

  /** Occupancy masks, one 4x4 block per kind, row by row. */
  const TETROMINOES: seq<seq<seq<int>>> := [
    [[0,1,0,0], [0,1,0,0], [0,1,0,0], [0,1,0,0]], // I
    [[0,0,0,0], [0,1,1,0], [0,1,1,0], [0,0,0,0]], // O
    [[0,0,0,0], [0,1,0,0], [1,1,1,0], [0,0,0,0]], // T
    [[0,0,0,0], [0,1,1,0], [1,1,0,0], [0,0,0,0]], // S
    [[0,0,0,0], [1,1,0,0], [0,1,1,0], [0,0,0,0]], // Z
    [[0,0,0,0], [1,0,0,0], [1,1,1,0], [0,0,0,0]], // J
    [[0,0,0,0], [0,0,1,0], [1,1,1,0], [0,0,0,0]]  // L
  ]

  const NAMES: seq<char> := ['I', 'O', 'T', 'S', 'Z', 'J', 'L']

  /** The template character: the kind's letter where the mask is set, a blank elsewhere. */
  function Template(kind: PieceKind, r: Coord, c: Coord): char
  {
    if TETROMINOES[kind][r][c] != 0 then NAMES[kind] else ' '
  }

  /** Applies the quarter-turn (r, c) -> (3 - c, r) n times. */
  function Turn(r: Coord, c: Coord, n: nat): (Coord, Coord)
    decreases n
  {
    if n == 0 then (r, c) else Turn(3 - c, r, n - 1)
  }

  /** The template cell seen at (row, col) of a piece turned `rotation` times. */
  function CellAt(kind: PieceKind, rotation: nat, row: Coord, col: Coord): char
  {
    var rc := Turn(row, col, rotation);
    Template(kind, rc.0, rc.1)
  }

  predicate Filled(kind: PieceKind, rotation: nat, row: Coord, col: Coord)
  {
    CellAt(kind, rotation, row, col) != ' '
  }

  /** Looks up a rotated template cell by turning the coordinates one quarter at a time. */
  method GetCell(kind: PieceKind, rotation: nat, row: Coord, col: Coord) returns (cell: char)
    ensures cell == CellAt(kind, rotation, row, col)
  {
    var r: Coord, c: Coord := row, col;
    for i := 0 to rotation
      invariant Turn(r, c, rotation - i) == Turn(row, col, rotation)
    {
      var temp := 3 - c;
      c := r;
      r := temp;
    }
    cell := Template(kind, r, c);
  }

  /** Four quarter-turns give back the starting coordinates. */
  lemma FourTurnsIdentity(r: Coord, c: Coord)
    ensures Turn(r, c, 4) == (r, c)
  {
    calc {
      Turn(r, c, 4);
      Turn(3 - c, r, 3);
      Turn(3 - r, 3 - c, 2);
      Turn(c, 3 - r, 1);
      Turn(r, c, 0);
    }
  }

  /** Turning is periodic with period four. */
  lemma {:induction false} TurnPeriodic(r: Coord, c: Coord, n: nat)
    ensures Turn(r, c, n + 4) == Turn(r, c, n)
    decreases n
  {
    if n == 0 {
      FourTurnsIdentity(r, c);
    } else {
      TurnPeriodic(3 - c, r, n - 1);
    }
  }

  /** Rotations n and n + 4 show the same cells; in particular rotations 0 and 4 agree. */
  lemma RotationWrapsAround(kind: PieceKind, rotation: nat, row: Coord, col: Coord)
    ensures CellAt(kind, rotation + 4, row, col) == CellAt(kind, rotation, row, col)
  {
    TurnPeriodic(row, col, rotation);
  }

  /** Every cell of a rotated template is blank or the kind's own letter. */
  lemma CellsHoldTheKindsLetter(kind: PieceKind, rotation: nat, row: Coord, col: Coord)
    ensures CellAt(kind, rotation, row, col) in {' ', NAMES[kind]}
    ensures NAMES[kind] != ' '
  {
  }

  function Bit(kind: PieceKind, rotation: nat, row: Coord, col: Coord): nat
  {
    if Filled(kind, rotation, row, col) then 1 else 0
  }

  /** Number of filled cells in one row of a rotated template. */
  function RowCount(kind: PieceKind, rotation: nat, row: Coord): nat
  {
    Bit(kind, rotation, row, 0) + Bit(kind, rotation, row, 1)
      + Bit(kind, rotation, row, 2) + Bit(kind, rotation, row, 3)
  }

  /** Number of filled cells of a rotated template. */
  function FilledCount(kind: PieceKind, rotation: nat): nat
  {
    RowCount(kind, rotation, 0) + RowCount(kind, rotation, 1)
      + RowCount(kind, rotation, 2) + RowCount(kind, rotation, 3)
  }

  /** One more quarter-turn reads the template cell (3 - col, row) of the previous state. */
  lemma OneMoreTurn(kind: PieceKind, rotation: nat, row: Coord, col: Coord)
    ensures Bit(kind, rotation + 1, row, col) == Bit(kind, rotation, 3 - col, row)
  {
  }

  /** Number of filled cells in one column of a rotated template. */
  function ColumnCount(kind: PieceKind, rotation: nat, col: Coord): nat
  {
    Bit(kind, rotation, 0, col) + Bit(kind, rotation, 1, col)
      + Bit(kind, rotation, 2, col) + Bit(kind, rotation, 3, col)
  }

  /** After one more quarter-turn, row `row` shows what column `row` showed before. */
  lemma TurnedRowIsColumn(kind: PieceKind, rotation: nat, row: Coord)
    ensures RowCount(kind, rotation + 1, row) == ColumnCount(kind, rotation, row)
  {
    OneMoreTurn(kind, rotation, row, 0);
    OneMoreTurn(kind, rotation, row, 1);
    OneMoreTurn(kind, rotation, row, 2);
    OneMoreTurn(kind, rotation, row, 3);
  }

  /** A quarter-turn permutes the sixteen template cells, so it keeps the number of filled cells. */
  lemma TurnKeepsCellCount(kind: PieceKind, rotation: nat)
    ensures FilledCount(kind, rotation + 1) == FilledCount(kind, rotation)
  {
    TurnedRowIsColumn(kind, rotation, 0);
    TurnedRowIsColumn(kind, rotation, 1);
    TurnedRowIsColumn(kind, rotation, 2);
    TurnedRowIsColumn(kind, rotation, 3);
  }

  /** Each unrotated template has exactly four filled cells: I, O, T and S. */
  lemma FourCellsUnrotatedLow(kind: PieceKind)
    requires kind <= 3
    ensures FilledCount(kind, 0) == 4
  {
    match kind
    case 0 => assert FilledCount(0, 0) == 4;
    case 1 => assert FilledCount(1, 0) == 4;
    case 2 => assert FilledCount(2, 0) == 4;
    case 3 => assert FilledCount(3, 0) == 4;
  }

  /** The same for Z, J and L. */
  lemma FourCellsUnrotatedHigh(kind: PieceKind)
    requires kind >= 4
    ensures FilledCount(kind, 0) == 4
  {
    match kind
    case 4 => assert FilledCount(4, 0) == 4;
    case 5 => assert FilledCount(5, 0) == 4;
    case 6 => assert FilledCount(6, 0) == 4;
  }

  /** Each template has exactly four filled cells, in every rotation state. */
  lemma {:induction false} FourCellsPerPiece(kind: PieceKind, rotation: nat)
    ensures FilledCount(kind, rotation) == 4
    decreases rotation
  {
    if rotation == 0 {
      if kind <= 3 {
        FourCellsUnrotatedLow(kind);
      } else {
        FourCellsUnrotatedHigh(kind);
      }
    } else {
      FourCellsPerPiece(kind, rotation - 1);
      TurnKeepsCellCount(kind, rotation - 1);
    }
  }

  /** A template cell that is filled for every kind in the given rotation state. */
  function KeyRow(rotation: Rotation): Coord
  {
    if rotation == 0 || rotation == 3 then 2 else 1
  }

  function KeyCol(rotation: Rotation): Coord
  {
    if rotation <= 1 then 1 else 2
  }

  lemma KeyCellFilled(kind: PieceKind, rotation: Rotation)
    ensures Filled(kind, rotation, KeyRow(rotation), KeyCol(rotation))
  {
    assert Turn(KeyRow(rotation), KeyCol(rotation), rotation) == (2, 1) by {
      if rotation == 3 {
        calc { Turn(2, 2, 3); Turn(1, 2, 2); Turn(1, 1, 1); Turn(2, 1, 0); }
      } else if rotation == 2 {
        calc { Turn(1, 2, 2); Turn(1, 1, 1); Turn(2, 1, 0); }
      }
    }
  }

  /** In rotation state 0 every filled cell lies in columns 0..2. */
  lemma SpawnShapeColumns(kind: PieceKind, row: Coord, col: Coord)
    requires Filled(kind, 0, row, col)
    ensures col <= 2
  {
  }
}
