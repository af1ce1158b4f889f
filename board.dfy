/**
 * The playfield object: a fixed BOARD_HEIGHT x BOARD_WIDTH character matrix
 * updated in place. Every method is specified by the grid-value function of
 * the Playfield and Collision modules that it computes.
 */
module Boards {
  import opened Geometry
  import opened Pieces
  import opened Playfield
  import opened Collision

  /** Template cell (i - p.pos.y, j - p.pos.x) comes before template cell n in row-major order. */
  predicate Visited(p: Piece, i: int, j: int, n: int)
  {
    4 * (i - p.pos.y) + (j - p.pos.x) < n
  }

  /**
   * The scanning pass's progress on the interior rows: rows above the read row
   * are untouched, and from the write row down lie the kept rows of those scanned.
   */
  ghost predicate Packing(rows: seq<Row>, inner: seq<Row>, readRow: int, writeRow: int)
  {
    |rows| == INTERIOR_HEIGHT && |inner| == INTERIOR_HEIGHT
    && 0 <= readRow <= writeRow <= INTERIOR_HEIGHT
    && (forall k | 0 <= k < INTERIOR_HEIGHT :: |rows[k]| == INTERIOR_WIDTH)
    && (forall k | 0 <= k < INTERIOR_HEIGHT :: |inner[k]| == INTERIOR_WIDTH)
    && inner[..readRow] == rows[..readRow]
    && inner[writeRow..] == Kept(rows[readRow..])
  }

  /** One step of the scanning pass: a full row is skipped, a non-full row is written just above the kept block. */
  lemma PackingStep(rows: seq<Row>, inner: seq<Row>, readRow: int, writeRow: int)
    requires Packing(rows, inner, readRow, writeRow) && readRow > 0
    ensures inner[readRow - 1] == rows[readRow - 1]
    ensures IsFull(rows[readRow - 1]) ==> Packing(rows, inner, readRow - 1, writeRow)
    ensures !IsFull(rows[readRow - 1]) ==>
      Packing(rows, inner[writeRow - 1 := rows[readRow - 1]], readRow - 1, writeRow - 1)
  {
    var current := rows[readRow - 1];
    assert inner[readRow - 1] == inner[..readRow][readRow - 1];
    assert rows[readRow - 1..] == [current] + rows[readRow..];
    assert Kept(rows[readRow - 1..]) == (if IsFull(current) then [] else [current]) + Kept(rows[readRow..]);
    assert inner[..readRow - 1] == inner[..readRow][..readRow - 1];
    assert rows[..readRow - 1] == rows[..readRow][..readRow - 1];
    if !IsFull(current) {
      var inner' := inner[writeRow - 1 := current];
      assert inner'[writeRow - 1..] == [current] + inner[writeRow..];
      assert inner'[..readRow - 1] == inner[..readRow - 1];
    }
  }

  /** When the scan reaches the top, the write row counts the removed rows and the kept block is the compacted interior's tail. */
  lemma PackingDone(rows: seq<Row>, inner: seq<Row>, writeRow: int)
    requires Packing(rows, inner, 0, writeRow)
    ensures writeRow == CountFull(rows)
    ensures CompactShapeOf(rows)
    ensures forall k | writeRow <= k < INTERIOR_HEIGHT :: inner[k] == Compact(rows)[k]
  {
    assert rows[0..] == rows;
    KeptAndFullPartition(rows);
    CompactShape(rows);
    forall k | writeRow <= k < INTERIOR_HEIGHT
      ensures inner[k] == Compact(rows)[k]
    {
      assert inner[k] == inner[writeRow..][k - writeRow];
    }
  }

  class Board {
    const grid: array2<char>

    predicate Valid()
    {
      grid.Length0 == BOARD_HEIGHT && grid.Length1 == BOARD_WIDTH
    }

    /** The grid as a value. */
    ghost function Cells(): (g: Grid)
      requires Valid()
      reads grid
      ensures WellFormed(g)
    {
      seq(BOARD_HEIGHT, i requires 0 <= i < BOARD_HEIGHT reads grid =>
        seq(BOARD_WIDTH, j requires 0 <= j < BOARD_WIDTH reads grid => grid[i, j]))
    }

    /** A zero-initialised grid, as a default-constructed board holds before init. */
    constructor()
      ensures Valid() && fresh(grid)
      ensures forall i, j | 0 <= i < BOARD_HEIGHT && 0 <= j < BOARD_WIDTH :: grid[i, j] == 0 as char
    {
      grid := new char[BOARD_HEIGHT, BOARD_WIDTH]((i, j) => 0 as char);
    }

    /** Lays out the walls, the ceiling with its gap and the empty playable area. */
    method Init()
      requires Valid()
      modifies grid
      ensures Cells() == InitialGrid()
    {
      for i := 0 to BOARD_HEIGHT
        invariant forall a, b | 0 <= a < i && 0 <= b < BOARD_WIDTH :: grid[a, b] == InitialCell(a, b)
      {
        for j := 0 to BOARD_WIDTH
          invariant forall a, b | 0 <= a < i && 0 <= b < BOARD_WIDTH :: grid[a, b] == InitialCell(a, b)
          invariant forall b | 0 <= b < j :: grid[i, b] == InitialCell(i, b)
        {
          if i == BOARD_HEIGHT - 1 || j == 0 || j == BOARD_WIDTH - 1 {
            grid[i, j] := '#';
          } else if i == 0 {
            if 5 <= j <= 9 {
              grid[i, j] := ' ';
            } else {
              grid[i, j] := '#';
            }
          } else {
            grid[i, j] := ' ';
          }
        }
      }
      assert forall i | 0 <= i < BOARD_HEIGHT :: Cells()[i] == InitialGrid()[i];
    }

    /** Scans the interior cells of one row for a blank. */
    method RowFull(row: int) returns (full: bool)
      requires Valid() && 1 <= row < BOARD_HEIGHT - 1
      ensures full <==> forall j | 1 <= j < BOARD_WIDTH - 1 :: grid[row, j] != ' '
    {
      full := true;
      var j := 1;
      while j < BOARD_WIDTH - 1
        invariant 1 <= j <= BOARD_WIDTH - 1
        invariant forall b | 1 <= b < j :: grid[row, b] != ' '
      {
        if grid[row, j] == ' ' {
          full := false;
          break;
        }
        j := j + 1;
      }
    }

    /** Copies the interior cells of row `from` onto row `to`. */
    method CopyRow(from: int, to: int)
      requires Valid() && 1 <= from < BOARD_HEIGHT - 1 && 1 <= to < BOARD_HEIGHT - 1 && from != to
      modifies grid
      ensures forall i, j | 0 <= i < BOARD_HEIGHT && 0 <= j < BOARD_WIDTH ::
        grid[i, j] == if i == to && 1 <= j < BOARD_WIDTH - 1 then old(grid[from, j]) else old(grid[i, j])
    {
      for j := 1 to BOARD_WIDTH - 1
        invariant forall i, b | 0 <= i < BOARD_HEIGHT && 0 <= b < BOARD_WIDTH ::
          grid[i, b] == if i == to && 1 <= b < j then old(grid[from, b]) else old(grid[i, b])
      {
        grid[to, j] := grid[from, j];
      }
    }

    /** Blanks the interior cells of one row. */
    method BlankRow(row: int)
      requires Valid() && 1 <= row < BOARD_HEIGHT - 1
      modifies grid
      ensures forall i, j | 0 <= i < BOARD_HEIGHT && 0 <= j < BOARD_WIDTH ::
        grid[i, j] == if i == row && 1 <= j < BOARD_WIDTH - 1 then ' ' else old(grid[i, j])
    {
      for j := 1 to BOARD_WIDTH - 1
        invariant forall i, b | 0 <= i < BOARD_HEIGHT && 0 <= b < BOARD_WIDTH ::
          grid[i, b] == if i == row && 1 <= b < j then ' ' else old(grid[i, b])
      {
        grid[row, j] := ' ';
      }
    }

    /**
     * The scanning pass of line clearing: walks a read row from the bottom
     * interior row up and copies every non-full row to the write row, which
     * moves up one row per copy. On return the rows below the write row hold
     * the compacted interior and the walls are untouched.
     */
    method PackRows() returns (writeRow: int)
      requires Valid()
      modifies grid
      ensures CompactShapeOf(Interior(old(Cells())))
      ensures writeRow == CountFull(Interior(old(Cells()))) <= INTERIOR_HEIGHT
      ensures forall i, j | writeRow < i < BOARD_HEIGHT - 1 && 1 <= j < BOARD_WIDTH - 1 ::
        grid[i, j] == Compact(Interior(old(Cells())))[i - 1][j - 1]
      ensures forall i, j | 0 <= i < BOARD_HEIGHT && 0 <= j < BOARD_WIDTH
          && (i == 0 || i == BOARD_HEIGHT - 1 || j == 0 || j == BOARD_WIDTH - 1) ::
        grid[i, j] == old(grid[i, j])
    {
      ghost var rows := Interior(Cells());
      // `inner` mirrors the interior rows of the grid as the loop rewrites them.
      ghost var inner := rows;
      writeRow := BOARD_HEIGHT - 2;
      var readRow := BOARD_HEIGHT - 2;
      while readRow > 0
        invariant Packing(rows, inner, readRow, writeRow)
        invariant forall i, j | 1 <= i < BOARD_HEIGHT - 1 && 1 <= j < BOARD_WIDTH - 1 ::
          grid[i, j] == inner[i - 1][j - 1]
        invariant forall i, j | 0 <= i < BOARD_HEIGHT && 0 <= j < BOARD_WIDTH
            && (i == 0 || i == BOARD_HEIGHT - 1 || j == 0 || j == BOARD_WIDTH - 1) ::
          grid[i, j] == old(grid[i, j])
      {
        PackingStep(rows, inner, readRow, writeRow);
        ghost var current := rows[readRow - 1];
        var full := RowFull(readRow);
        assert full == IsFull(current) by {
          forall j | 0 <= j < INTERIOR_WIDTH
            ensures current[j] == grid[readRow, j + 1]
          {
          }
        }
        if !full {
          if writeRow != readRow {
            CopyRow(readRow, writeRow);
          }
          inner := inner[writeRow - 1 := current];
          writeRow := writeRow - 1;
        }
        readRow := readRow - 1;
      }
      PackingDone(rows, inner, writeRow);
    }

    /**
     * Removes full interior rows: the scanning pass packs the non-full rows
     * against the bottom wall, then the rows left above the write row are
     * blanked. Returns the number of rows removed.
     */
    method ClearLines() returns (lines: nat)
      requires Valid()
      modifies grid
      ensures Cells() == ClearFull(old(Cells()))
      ensures lines == CountFull(Interior(old(Cells())))
    {
      ghost var before := Cells();
      var writeRow := PackRows();
      lines := writeRow;
      ghost var packed := Compact(Interior(before));
      KeptAndFullPartition(Interior(before));
      while writeRow > 0
        invariant 0 <= writeRow <= lines
        invariant forall i, j | writeRow < i < BOARD_HEIGHT - 1 && 1 <= j < BOARD_WIDTH - 1 ::
          grid[i, j] == packed[i - 1][j - 1]
        invariant forall i, j | 0 <= i < BOARD_HEIGHT && 0 <= j < BOARD_WIDTH
            && (i == 0 || i == BOARD_HEIGHT - 1 || j == 0 || j == BOARD_WIDTH - 1) ::
          grid[i, j] == before[i][j]
      {
        BlankRow(writeRow);
        assert packed[writeRow - 1] == BlankRows(lines)[writeRow - 1];
        writeRow := writeRow - 1;
      }
      forall i | 0 <= i < BOARD_HEIGHT
        ensures Cells()[i] == ClearFull(before)[i]
      {
        forall j | 0 <= j < BOARD_WIDTH
          ensures Cells()[i][j] == ClearFull(before)[i][j]
        {
          ClearFullCell(before, i, j);
        }
      }
    }

    /** Sets every interior cell to blank, row by row, leaving the walls and the ceiling row alone. */
    method BlankInterior()
      requires Valid()
      modifies grid
      ensures Cells() == EmptyInterior(old(Cells()))
    {
      ghost var before := Cells();
      for y := 1 to BOARD_HEIGHT - 1
        invariant forall i, j | 0 <= i < BOARD_HEIGHT && 0 <= j < BOARD_WIDTH ::
          grid[i, j] == if 1 <= i < y && 1 <= j < BOARD_WIDTH - 1 then ' ' else before[i][j]
      {
        for x := 1 to BOARD_WIDTH - 1
          invariant forall i, j | 0 <= i < BOARD_HEIGHT && 0 <= j < BOARD_WIDTH ::
            grid[i, j] == if (1 <= i < y && 1 <= j < BOARD_WIDTH - 1) || (i == y && 1 <= j < x) then ' ' else before[i][j]
        {
          grid[y, x] := ' ';
        }
      }
      assert forall i | 0 <= i < BOARD_HEIGHT :: Cells()[i] == EmptyInterior(before)[i];
    }

    /** Writes the piece's letters (place) or blanks (erase) on every covered cell inside the board. */
    method PlacePiece(piece: Piece, place: bool)
      requires Valid()
      modifies grid
      ensures Cells() == Stamp(old(Cells()), piece, place)
    {
      ghost var before := Cells();
      for row := 0 to BLOCK_SIZE
        invariant forall i, j | 0 <= i < BOARD_HEIGHT && 0 <= j < BOARD_WIDTH ::
          grid[i, j] == if Covers(piece, i, j) && Visited(piece, i, j, 4 * row)
            then (if place then SymbolAt(piece, i, j) else ' ') else before[i][j]
      {
        for col := 0 to BLOCK_SIZE
          invariant forall i, j | 0 <= i < BOARD_HEIGHT && 0 <= j < BOARD_WIDTH ::
            grid[i, j] == if Covers(piece, i, j) && Visited(piece, i, j, 4 * row + col)
              then (if place then SymbolAt(piece, i, j) else ' ') else before[i][j]
        {
          var cell := GetCell(piece.kind, piece.rotation, row, col);
          if cell == ' ' {
            continue;
          }
          var xt, yt := piece.pos.x + col, piece.pos.y + row;
          if !InsideBoard(xt, yt) {
            continue;
          }
          grid[yt, xt] := if place then cell else ' ';
        }
      }
      assert forall i | 0 <= i < BOARD_HEIGHT :: Cells()[i] == Stamp(before, piece, place)[i];
    }

    /** Writes the piece's letters only on covered board cells that are blank. */
    method PlacePieceSafe(piece: Piece)
      requires Valid()
      modifies grid
      ensures Cells() == StampSafe(old(Cells()), piece)
    {
      ghost var before := Cells();
      for row := 0 to BLOCK_SIZE
        invariant forall i, j | 0 <= i < BOARD_HEIGHT && 0 <= j < BOARD_WIDTH ::
          grid[i, j] == if Covers(piece, i, j) && before[i][j] == ' ' && Visited(piece, i, j, 4 * row)
            then SymbolAt(piece, i, j) else before[i][j]
      {
        for col := 0 to BLOCK_SIZE
          invariant forall i, j | 0 <= i < BOARD_HEIGHT && 0 <= j < BOARD_WIDTH ::
            grid[i, j] == if Covers(piece, i, j) && before[i][j] == ' ' && Visited(piece, i, j, 4 * row + col)
              then SymbolAt(piece, i, j) else before[i][j]
        {
          var cell := GetCell(piece.kind, piece.rotation, row, col);
          if cell == ' ' {
            continue;
          }
          var xt, yt := piece.pos.x + col, piece.pos.y + row;
          if !InsideBoard(xt, yt) {
            continue;
          }
          if grid[yt, xt] == ' ' {
            grid[yt, xt] := cell;
          }
        }
      }
      assert forall i | 0 <= i < BOARD_HEIGHT :: Cells()[i] == StampSafe(before, piece)[i];
    }
  }
}
