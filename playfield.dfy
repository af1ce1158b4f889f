/**
 * The playfield as a value: a BOARD_HEIGHT x BOARD_WIDTH matrix of cells,
 * its initial wall-and-ceiling layout, and the line-clear compaction of its
 * interior rows.
 */
module Playfield {
  import opened Geometry

  type Row = seq<char>
  type Grid = seq<Row>

  /** Interior rows are 1 .. BOARD_HEIGHT - 2 and interior columns 1 .. BOARD_WIDTH - 2. */
  const INTERIOR_HEIGHT: int := BOARD_HEIGHT - 2
  const INTERIOR_WIDTH: int := BOARD_WIDTH - 2

  predicate WellFormed(g: Grid)
  {
    |g| == BOARD_HEIGHT && forall i | 0 <= i < |g| :: |g[i]| == BOARD_WIDTH
  }

  /**
   * The initial layout: a '#' wall on the bottom row and on the first and last
   * columns, a '#' ceiling on row 0 with a gap over columns 5..9, blanks elsewhere.
   */
  function InitialCell(i: int, j: int): char
  {
    if i == BOARD_HEIGHT - 1 || j == 0 || j == BOARD_WIDTH - 1 then '#'
    else if i == 0 then (if 5 <= j <= 9 then ' ' else '#')
    else ' '
  }

  function InitialGrid(): (g: Grid)
    ensures WellFormed(g)
  {
    seq(BOARD_HEIGHT, i => seq(BOARD_WIDTH, j => InitialCell(i, j)))
  }

  /** A wall cell of the initial layout: the bottom row, the side columns, and the ceiling outside its gap. */
  predicate IsWall(i: int, j: int)
  {
    InitialCell(i, j) == '#'
  }

  /** Every wall cell of the initial layout still holds '#'. */
  predicate Walled(g: Grid)
    requires WellFormed(g)
  {
    forall i, j | 0 <= i < BOARD_HEIGHT && 0 <= j < BOARD_WIDTH && IsWall(i, j) :: g[i][j] == '#'
  }

  /** g with every interior cell blank and the walls and the ceiling row as they were. */
  function EmptyInterior(g: Grid): (h: Grid)
    requires WellFormed(g)
    ensures WellFormed(h)
  {
    seq(BOARD_HEIGHT, i requires 0 <= i < BOARD_HEIGHT =>
      seq(BOARD_WIDTH, j requires 0 <= j < BOARD_WIDTH =>
        if 1 <= i < BOARD_HEIGHT - 1 && 1 <= j < BOARD_WIDTH - 1 then ' ' else g[i][j]))
  }

  /** A row is full when none of its cells is blank. */
  predicate IsFull(row: Row)
  {
    forall j | 0 <= j < |row| :: row[j] != ' '
  }

  /** The interior of g: rows 1 .. H-2 restricted to columns 1 .. W-2. */
  function Interior(g: Grid): (rows: seq<Row>)
    requires WellFormed(g)
    ensures |rows| == INTERIOR_HEIGHT
    ensures forall k | 0 <= k < |rows| :: |rows[k]| == INTERIOR_WIDTH
  {
    seq(INTERIOR_HEIGHT, k requires 0 <= k < INTERIOR_HEIGHT =>
      seq(INTERIOR_WIDTH, j requires 0 <= j < INTERIOR_WIDTH => g[k + 1][j + 1]))
  }

  /** No interior row of g is full. */
  predicate NoFullRow(g: Grid)
    requires WellFormed(g)
  {
    forall k | 0 <= k < INTERIOR_HEIGHT :: !IsFull(Interior(g)[k])
  }

  /** The rows that are not full, in their original top-to-bottom order. */
  function Kept(rows: seq<Row>): (kept: seq<Row>)
    ensures |kept| <= |rows|
  {
    if rows == [] then []
    else (if IsFull(rows[0]) then [] else [rows[0]]) + Kept(rows[1..])
  }

  /** Number of full rows. */
  function CountFull(rows: seq<Row>): nat
  {
    if rows == [] then 0
    else (if IsFull(rows[0]) then 1 else 0) + CountFull(rows[1..])
  }

  function BlankRows(n: nat): seq<Row>
  {
    seq(n, _ => seq(INTERIOR_WIDTH, _ => ' '))
  }

  /**
   * Line clearing on the interior: the rows that are not full, packed against
   * the bottom in their original order, under as many blank rows as were removed.
   */
  function Compact(rows: seq<Row>): (packed: seq<Row>)
  {
    BlankRows(|rows| - |Kept(rows)|) + Kept(rows)
  }

  /**
   * The grid after line clearing: interior cells come from the compacted
   * interior, the walls, the ceiling row and the bottom row are untouched.
   */
  function ClearFull(g: Grid): (h: Grid)
    requires WellFormed(g)
    ensures WellFormed(h)
  {
    var packed := Compact(Interior(g));
    CompactShape(Interior(g));
    seq(BOARD_HEIGHT, i requires 0 <= i < BOARD_HEIGHT =>
      seq(BOARD_WIDTH, j requires 0 <= j < BOARD_WIDTH =>
        if 1 <= i < BOARD_HEIGHT - 1 && 1 <= j < BOARD_WIDTH - 1 then packed[i - 1][j - 1] else g[i][j]))
  }

  // ----- lemmas -----

  /** The compacted rows have the interior's shape. */
  predicate CompactShapeOf(rows: seq<Row>)
  {
    |Compact(rows)| == INTERIOR_HEIGHT
    && forall k | 0 <= k < INTERIOR_HEIGHT :: |Compact(rows)[k]| == INTERIOR_WIDTH
  }

  /** One cell of the cleared grid: from the compacted interior inside the walls, unchanged on them. */
  lemma ClearFullCell(g: Grid, i: int, j: int)
    requires WellFormed(g) && 0 <= i < BOARD_HEIGHT && 0 <= j < BOARD_WIDTH
    ensures CompactShapeOf(Interior(g))
    ensures ClearFull(g)[i][j] ==
      if 1 <= i < BOARD_HEIGHT - 1 && 1 <= j < BOARD_WIDTH - 1
      then Compact(Interior(g))[i - 1][j - 1] else g[i][j]
  {
    CompactShape(Interior(g));
  }

  /** Every cell of the cleared grid is blank or a cell of the same column of the original grid. */
  lemma ClearFullCellOrigin(g: Grid, i: int, j: int)
    requires WellFormed(g) && 0 <= i < BOARD_HEIGHT && 0 <= j < BOARD_WIDTH
    ensures ClearFull(g)[i][j] == ' ' || exists k | 0 <= k < BOARD_HEIGHT :: ClearFull(g)[i][j] == g[k][j]
  {
    ClearFullCell(g, i, j);
    if 1 <= i < BOARD_HEIGHT - 1 && 1 <= j < BOARD_WIDTH - 1 {
      var rows := Interior(g);
      var blanks := |rows| - |Kept(rows)|;
      if i - 1 >= blanks {
        var row := Kept(rows)[i - 1 - blanks];
        assert Compact(rows)[i - 1] == row;
        KeptMembers(rows, row);
        var k :| 0 <= k < |rows| && rows[k] == row;
        assert ClearFull(g)[i][j] == g[k + 1][j];
      }
    }
  }

  /** Kept rows have the interior width when all input rows do. */
  lemma KeptWidth(rows: seq<Row>)
    requires forall k | 0 <= k < |rows| :: |rows[k]| == INTERIOR_WIDTH
    ensures forall k | 0 <= k < |Kept(rows)| :: |Kept(rows)[k]| == INTERIOR_WIDTH
  {
    forall k | 0 <= k < |Kept(rows)|
      ensures |Kept(rows)[k]| == INTERIOR_WIDTH
    {
      KeptMembers(rows, Kept(rows)[k]);
    }
  }

  /** The compacted interior has the interior's shape. */
  lemma CompactShape(rows: seq<Row>)
    requires forall k | 0 <= k < |rows| :: |rows[k]| == INTERIOR_WIDTH
    ensures |Compact(rows)| == |rows|
    ensures forall k | 0 <= k < |Compact(rows)| :: |Compact(rows)[k]| == INTERIOR_WIDTH
  {
    var packed := Compact(rows);
    KeptWidth(rows);
    forall k | 0 <= k < |packed|
      ensures |packed[k]| == INTERIOR_WIDTH
    {
      var blanks := |rows| - |Kept(rows)|;
      if k >= blanks {
        assert packed[k] == Kept(rows)[k - blanks];
      }
    }
  }

  /** A row is kept exactly when it occurs in the input and is not full. */
  lemma {:induction false} KeptMembers(rows: seq<Row>, row: Row)
    ensures row in Kept(rows) <==> row in rows && !IsFull(row)
  {
    if rows != [] {
      KeptMembers(rows[1..], row);
      assert rows == [rows[0]] + rows[1..];
    }
  }

  /** Every row is either kept or counted as full. */
  lemma {:induction false} KeptAndFullPartition(rows: seq<Row>)
    ensures |Kept(rows)| + CountFull(rows) == |rows|
  {
    if rows != [] {
      KeptAndFullPartition(rows[1..]);
    }
  }

  /** Filtering commutes with concatenation: the kept rows keep their relative order. */
  lemma {:induction false} KeptConcat(a: seq<Row>, b: seq<Row>)
    ensures Kept(a + b) == Kept(a) + Kept(b)
  {
    if a == [] {
      assert a + b == b;
    } else {
      var head: seq<Row> := if IsFull(a[0]) then [] else [a[0]];
      assert (a + b)[0] == a[0];
      assert (a + b)[1..] == a[1..] + b;
      calc {
        Kept(a + b);
        head + Kept(a[1..] + b);
        { KeptConcat(a[1..], b); }
        head + (Kept(a[1..]) + Kept(b));
        (head + Kept(a[1..])) + Kept(b);
        Kept(a) + Kept(b);
      }
    }
  }

  /** Without full rows nothing is filtered out. */
  lemma {:induction false} KeptAllWhenNoneFull(rows: seq<Row>)
    requires forall k | 0 <= k < |rows| :: !IsFull(rows[k])
    ensures Kept(rows) == rows
  {
    if rows != [] {
      KeptAllWhenNoneFull(rows[1..]);
    }
  }

  /** Compacting rows none of which is full changes nothing. */
  lemma CompactWithoutFullRows(rows: seq<Row>)
    requires forall k | 0 <= k < |rows| :: !IsFull(rows[k])
    ensures Compact(rows) == rows
  {
    KeptAllWhenNoneFull(rows);
  }

  /** After compaction no row is full: blank rows are not, and kept rows were not. */
  lemma CompactLeavesNoFullRow(rows: seq<Row>)
    requires forall k | 0 <= k < |rows| :: |rows[k]| == INTERIOR_WIDTH
    ensures forall k | 0 <= k < |Compact(rows)| :: !IsFull(Compact(rows)[k])
  {
    var packed := Compact(rows);
    var blanks := |rows| - |Kept(rows)|;
    forall k | 0 <= k < |packed|
      ensures !IsFull(packed[k])
    {
      if k < blanks {
        assert packed[k][0] == ' ';
      } else {
        assert packed[k] == Kept(rows)[k - blanks];
        KeptMembers(rows, packed[k]);
      }
    }
  }

  /** The interior of the cleared grid is the compacted interior of the original. */
  lemma InteriorOfClearFull(g: Grid)
    requires WellFormed(g)
    ensures Interior(ClearFull(g)) == Compact(Interior(g))
  {
    var packed := Compact(Interior(g));
    CompactShape(Interior(g));
    var h := ClearFull(g);
    forall k | 0 <= k < INTERIOR_HEIGHT
      ensures Interior(h)[k] == packed[k]
    {
      assert forall j | 0 <= j < INTERIOR_WIDTH :: Interior(h)[k][j] == h[k + 1][j + 1] == packed[k][j];
    }
  }

  /** Clearing a grid without full interior rows leaves it unchanged. */
  lemma ClearFullWithoutFullRows(g: Grid)
    requires WellFormed(g) && NoFullRow(g)
    ensures ClearFull(g) == g
  {
    var rows := Interior(g);
    CompactWithoutFullRows(rows);
    var h := ClearFull(g);
    forall i | 0 <= i < BOARD_HEIGHT
      ensures h[i] == g[i]
    {
      forall j | 0 <= j < BOARD_WIDTH
        ensures h[i][j] == g[i][j]
      {
        if 1 <= i < BOARD_HEIGHT - 1 && 1 <= j < BOARD_WIDTH - 1 {
          assert h[i][j] == rows[i - 1][j - 1];
        }
      }
    }
  }

  /** After line clearing no interior row is full, so clearing again removes nothing. */
  lemma ClearFullLeavesNoFullRow(g: Grid)
    requires WellFormed(g)
    ensures NoFullRow(ClearFull(g))
    ensures ClearFull(ClearFull(g)) == ClearFull(g)
  {
    InteriorOfClearFull(g);
    CompactShape(Interior(g));
    CompactLeavesNoFullRow(Interior(g));
    ClearFullWithoutFullRows(ClearFull(g));
  }

  /** The fresh board is walled and has no full interior row. */
  lemma InitialGridHasNoFullRow()
    ensures Walled(InitialGrid())
    ensures NoFullRow(InitialGrid())
  {
    var rows := Interior(InitialGrid());
    forall k | 0 <= k < INTERIOR_HEIGHT
      ensures !IsFull(rows[k])
    {
      assert rows[k][0] == InitialCell(k + 1, 1) == ' ';
    }
  }

  /** Line clearing moves interior cells only, so the walls and the ceiling survive it. */
  lemma ClearFullKeepsWalls(g: Grid)
    requires WellFormed(g) && Walled(g)
    ensures Walled(ClearFull(g))
  {
    forall i, j | 0 <= i < BOARD_HEIGHT && 0 <= j < BOARD_WIDTH && IsWall(i, j)
      ensures ClearFull(g)[i][j] == '#'
    {
      ClearFullCell(g, i, j);
    }
  }

  /** Blanking the interior of a fresh board changes nothing. */
  lemma EmptyInteriorOfInitialGrid()
    ensures EmptyInterior(InitialGrid()) == InitialGrid()
  {
    var g := InitialGrid();
    forall i | 0 <= i < BOARD_HEIGHT ensures EmptyInterior(g)[i] == g[i] {
      assert forall j | 0 <= j < BOARD_WIDTH :: EmptyInterior(g)[i][j] == g[i][j];
    }
  }

  /** A blanked interior has no full row, keeps the walls, and blanking again changes nothing. */
  lemma EmptyInteriorIsClear(g: Grid)
    requires WellFormed(g)
    ensures NoFullRow(EmptyInterior(g))
    ensures Walled(g) ==> Walled(EmptyInterior(g))
    ensures EmptyInterior(EmptyInterior(g)) == EmptyInterior(g)
  {
    var h := EmptyInterior(g);
    forall k | 0 <= k < INTERIOR_HEIGHT ensures !IsFull(Interior(h)[k]) {
      assert Interior(h)[k][0] == h[k + 1][1] == ' ';
    }
    forall i | 0 <= i < BOARD_HEIGHT ensures EmptyInterior(h)[i] == h[i] {
      assert forall j | 0 <= j < BOARD_WIDTH :: EmptyInterior(h)[i][j] == h[i][j];
    }
  }

  /** How many of the indices 0 .. n-1 fall in the window [a, a + 4). */
  function InWindow(n: nat, a: int): nat
  {
    var lo := if a < 0 then 0 else a;
    var hi := if a + 4 < n then a + 4 else n;
    if lo < hi then hi - lo else 0
  }

  /** If full rows occur only inside a window of four rows, at most four rows are full. */
  lemma {:induction false} FullRowsInWindow(rows: seq<Row>, a: int)
    requires forall k | 0 <= k < |rows| && !(a <= k < a + 4) :: !IsFull(rows[k])
    ensures CountFull(rows) <= InWindow(|rows|, a) <= 4
  {
    if rows != [] {
      forall k | 0 <= k < |rows| - 1 && !(a - 1 <= k < a + 3)
        ensures !IsFull(rows[1..][k])
      {
        assert rows[1..][k] == rows[k + 1];
      }
      FullRowsInWindow(rows[1..], a - 1);
    }
  }
}
