/**
 * Collision and placement rules as functions of a grid value and a piece:
 * the legality tests of both game versions, the landing row of a drop, and
 * the grids produced by stamping, erasing, safe-stamping and ghost marking.
 */
module Collision {
  import opened Geometry
  import opened Pieces
  import opened Playfield

  /** A cell that stops a piece in the later version: anything but a blank or a ghost dot. */
  predicate Blocking(ch: char)
  {
    ch != ' ' && ch != '.'
  }

  /** Whole-board bounds, used when stamping and ghost marking. */
  predicate InsideBoard(x: int, y: int)
  {
    0 <= x < BOARD_WIDTH && 0 <= y < BOARD_HEIGHT
  }

  // ----- legality: the later version (same rule for spawning and moving) -----

  /** Template cell (r, c) of p is blank, or sits in a board column above the bottom edge and, on the board, on no blocking cell. */
  predicate CellFits(g: Grid, p: Piece, r: Coord, c: Coord)
    requires WellFormed(g)
  {
    var xt, yt := p.pos.x + c, p.pos.y + r;
    !Filled(p.kind, p.rotation, r, c)
    || (0 <= xt < BOARD_WIDTH && yt < BOARD_HEIGHT && (yt >= 0 ==> !Blocking(g[yt][xt])))
  }

  predicate Fits(g: Grid, p: Piece)
    requires WellFormed(g)
  {
    forall r: Coord, c: Coord :: CellFits(g, p, r, c)
  }

  // ----- legality: the single-file version -----

  /** The single-file version's playable area: inside the side walls, above the bottom wall. */
  predicate InsidePlayfieldClassic(x: int, y: int)
  {
    1 <= x < BOARD_WIDTH - 1 && 0 <= y < BOARD_HEIGHT - 1
  }

  /** Spawning: a filled cell on row 0 or below must be in the playable area and on a blank. */
  predicate ClassicSpawnCellFits(g: Grid, p: Piece, r: Coord, c: Coord)
    requires WellFormed(g)
  {
    var xt, yt := p.pos.x + c, p.pos.y + r;
    !Filled(p.kind, p.rotation, r, c)
    || (yt >= 0 ==> InsidePlayfieldClassic(xt, yt) && g[yt][xt] == ' ')
  }

  predicate ClassicSpawnFits(g: Grid, p: Piece)
    requires WellFormed(g)
  {
    forall r: Coord, c: Coord :: ClassicSpawnCellFits(g, p, r, c)
  }

  /** Moving: every filled cell inside the side walls and above the bottom wall, and on a blank when on the board. */
  predicate ClassicMoveCellFits(g: Grid, p: Piece, r: Coord, c: Coord)
    requires WellFormed(g)
  {
    var xt, yt := p.pos.x + c, p.pos.y + r;
    !Filled(p.kind, p.rotation, r, c)
    || (1 <= xt < BOARD_WIDTH - 1 && yt < BOARD_HEIGHT - 1 && (yt >= 0 ==> g[yt][xt] == ' '))
  }

  predicate ClassicMoveFits(g: Grid, p: Piece)
    requires WellFormed(g)
  {
    forall r: Coord, c: Coord :: ClassicMoveCellFits(g, p, r, c)
  }

  // ----- dropping -----

  /** The ghost projection's test of cell (r, c) one row further down (columns are not checked). */
  predicate CellDrops(g: Grid, p: Piece, r: Coord, c: Coord)
    requires WellFormed(g) && ColumnsInRange(p)
  {
    var xt, yt := p.pos.x + c, p.pos.y + r + 1;
    !Filled(p.kind, p.rotation, r, c)
    || (yt < BOARD_HEIGHT && (yt >= 0 ==> !Blocking(g[yt][xt])))
  }

  predicate Drops(g: Grid, p: Piece)
    requires WellFormed(g) && ColumnsInRange(p)
  {
    forall r: Coord, c: Coord :: CellDrops(g, p, r, c)
  }

  /** Where a piece comes to rest when moved down while the row below fits (later version). */
  function Landing(g: Grid, p: Piece): (q: Piece)
    requires WellFormed(g)
    ensures q == p.AtRow(q.pos.y) && q.pos.y >= p.pos.y
    ensures !Fits(g, q.Moved(0, 1))
    ensures forall y | p.pos.y < y <= q.pos.y :: Fits(g, p.AtRow(y))
    ensures Fits(g, p) ==> Fits(g, q)
    decreases BOARD_HEIGHT - p.pos.y
  {
    if Fits(g, p.Moved(0, 1)) then
      KeyCellFilled(p.kind, p.rotation);
      assert CellFits(g, p.Moved(0, 1), KeyRow(p.rotation), KeyCol(p.rotation));
      assert forall y :: p.Moved(0, 1).AtRow(y) == p.AtRow(y);
      Landing(g, p.Moved(0, 1))
    else
      p
  }

  /** Where a piece comes to rest when moved down while the row below fits (single-file version). */
  function ClassicLanding(g: Grid, p: Piece): (q: Piece)
    requires WellFormed(g)
    ensures q == p.AtRow(q.pos.y) && q.pos.y >= p.pos.y
    ensures !ClassicMoveFits(g, q.Moved(0, 1))
    ensures forall y | p.pos.y < y <= q.pos.y :: ClassicMoveFits(g, p.AtRow(y))
    decreases BOARD_HEIGHT - p.pos.y
  {
    if ClassicMoveFits(g, p.Moved(0, 1)) then
      KeyCellFilled(p.kind, p.rotation);
      assert ClassicMoveCellFits(g, p.Moved(0, 1), KeyRow(p.rotation), KeyCol(p.rotation));
      assert forall y :: p.Moved(0, 1).AtRow(y) == p.AtRow(y);
      ClassicLanding(g, p.Moved(0, 1))
    else
      p
  }

  // ----- stamping -----

  /** Writes p's letters (place) or blanks (erase) on the board cells p covers. */
  function Stamp(g: Grid, p: Piece, place: bool): (h: Grid)
    requires WellFormed(g)
    ensures WellFormed(h)
  {
    seq(BOARD_HEIGHT, i requires 0 <= i < BOARD_HEIGHT =>
      seq(BOARD_WIDTH, j requires 0 <= j < BOARD_WIDTH =>
        if Covers(p, i, j) then (if place then SymbolAt(p, i, j) else ' ') else g[i][j]))
  }

  /** Writes p's letters only on covered cells that are blank. */
  function StampSafe(g: Grid, p: Piece): (h: Grid)
    requires WellFormed(g)
    ensures WellFormed(h)
  {
    seq(BOARD_HEIGHT, i requires 0 <= i < BOARD_HEIGHT =>
      seq(BOARD_WIDTH, j requires 0 <= j < BOARD_WIDTH =>
        if Covers(p, i, j) && g[i][j] == ' ' then SymbolAt(p, i, j) else g[i][j]))
  }

  /** Writes a ghost dot '.' on every covered cell that is blank. */
  function GhostStamp(g: Grid, p: Piece): (h: Grid)
    requires WellFormed(g)
    ensures WellFormed(h)
  {
    seq(BOARD_HEIGHT, i requires 0 <= i < BOARD_HEIGHT =>
      seq(BOARD_WIDTH, j requires 0 <= j < BOARD_WIDTH =>
        if Covers(p, i, j) && g[i][j] == ' ' then '.' else g[i][j]))
  }

  /** What ghost marking records at template cell (r, c): its board position, if that cell gets a dot. */
  function TrailAt(g: Grid, p: Piece, r: Coord, c: Coord): seq<Position>
    requires WellFormed(g)
  {
    var xt, yt := p.pos.x + c, p.pos.y + r;
    if Filled(p.kind, p.rotation, r, c) && InsideBoard(xt, yt) && g[yt][xt] == ' '
    then [Position(xt, yt)] else []
  }

  /** The positions ghost marking has recorded when it reaches template cell (row, col), in row-major order. */
  function TrailUpTo(g: Grid, p: Piece, row: nat, col: nat): seq<Position>
    requires WellFormed(g) && row <= 4 && col <= 4 && (row < 4 || col == 0)
    decreases row, col
  {
    if col > 0 then TrailUpTo(g, p, row, col - 1) + TrailAt(g, p, row, col - 1)
    else if row > 0 then TrailUpTo(g, p, row - 1, 4)
    else []
  }

  /** The positions ghost marking records over the whole template: filled, on the board and blank. */
  function GhostTrail(g: Grid, p: Piece): seq<Position>
    requires WellFormed(g)
  {
    TrailUpTo(g, p, 4, 0)
  }

  /** Every recorded position that still holds a ghost dot becomes blank again. */
  function EraseDots(g: Grid, marks: seq<Position>): (h: Grid)
    requires WellFormed(g)
    ensures WellFormed(h)
  {
    seq(BOARD_HEIGHT, i requires 0 <= i < BOARD_HEIGHT =>
      seq(BOARD_WIDTH, j requires 0 <= j < BOARD_WIDTH =>
        if Position(j, i) in marks && g[i][j] == '.' then ' ' else g[i][j]))
  }

  /** No cell of g holds a ghost dot. */
  predicate NoDots(g: Grid)
    requires WellFormed(g)
  {
    forall i, j | 0 <= i < BOARD_HEIGHT && 0 <= j < BOARD_WIDTH :: g[i][j] != '.'
  }

  /** The same placements fit on g and on h. */
  ghost predicate SameFits(g: Grid, h: Grid)
    requires WellFormed(g) && WellFormed(h)
  {
    forall p: Piece :: Fits(g, p) == Fits(h, p)
  }

  /** Locking p on g clears at most four rows, so the score table lookup stays in range. */
  predicate LockInRange(g: Grid, p: Piece)
    requires WellFormed(g)
  {
    CountFull(Interior(Stamp(g, p, true))) <= 4
  }

  // ----- lemmas -----

  /** A piece that fits has all its columns on the board. */
  lemma FitsColumnsInRange(g: Grid, p: Piece)
    requires WellFormed(g) && Fits(g, p)
    ensures ColumnsInRange(p)
  {
    forall r: Coord, c: Coord | Filled(p.kind, p.rotation, r, c)
      ensures 0 <= p.pos.x + c < BOARD_WIDTH
    {
      assert CellFits(g, p, r, c);
    }
  }

  /** With its columns on the board, the ghost test is the later version's move-down test. */
  lemma DropsIffFitsBelow(g: Grid, p: Piece)
    requires WellFormed(g) && ColumnsInRange(p)
    ensures Drops(g, p) <==> Fits(g, p.Moved(0, 1))
  {
    if Drops(g, p) {
      forall r: Coord, c: Coord ensures CellFits(g, p.Moved(0, 1), r, c) {
        assert CellDrops(g, p, r, c);
      }
    }
    if Fits(g, p.Moved(0, 1)) {
      forall r: Coord, c: Coord ensures CellDrops(g, p, r, c) {
        assert CellFits(g, p.Moved(0, 1), r, c);
      }
    }
  }

  /** The single-file move rule is stricter than the later version's rule. */
  lemma ClassicMoveFitsImpliesFits(g: Grid, p: Piece)
    requires WellFormed(g) && ClassicMoveFits(g, p)
    ensures Fits(g, p)
  {
    forall r: Coord, c: Coord ensures CellFits(g, p, r, c) {
      assert ClassicMoveCellFits(g, p, r, c);
    }
  }

  /** Filled cells above row 0 never collide: a piece wholly above the board fits if its columns are on the board. */
  lemma AboveBoardFits(g: Grid, p: Piece)
    requires WellFormed(g) && ColumnsInRange(p)
    requires forall r: Coord, c: Coord :: Filled(p.kind, p.rotation, r, c) ==> p.pos.y + r < 0
    ensures Fits(g, p)
  {
  }

  /** Ghost dots never block: marking a ghost does not change which placements fit. */
  lemma GhostDotsNeverBlock(g: Grid, shadow: Piece, p: Piece)
    requires WellFormed(g)
    ensures Fits(GhostStamp(g, shadow), p) == Fits(g, p)
  {
    var h := GhostStamp(g, shadow);
    forall r: Coord, c: Coord
      ensures CellFits(h, p, r, c) == CellFits(g, p, r, c)
    {
      var xt, yt := p.pos.x + c, p.pos.y + r;
      if 0 <= xt < BOARD_WIDTH && 0 <= yt < BOARD_HEIGHT {
        assert Blocking(h[yt][xt]) == Blocking(g[yt][xt]);
      }
    }
  }

  /** On a fresh board every kind fits at the spawn position under both rules: its footprint lies in the ceiling gap. */
  lemma FreshBoardAcceptsEverySpawn(kind: PieceKind)
    ensures Fits(InitialGrid(), SpawnPiece(kind))
    ensures ClassicSpawnFits(InitialGrid(), SpawnPiece(kind))
  {
    var g, p := InitialGrid(), SpawnPiece(kind);
    forall r: Coord, c: Coord
      ensures CellFits(g, p, r, c) && ClassicSpawnCellFits(g, p, r, c)
    {
      if Filled(kind, 0, r, c) {
        SpawnShapeColumns(kind, r, c);
        var xt, yt := 5 + c, r - 1;
        if yt >= 0 {
          assert g[yt][xt] == InitialCell(yt, xt) == ' ';
        }
      }
    }
  }

  /** Stamping or erasing a piece that fits never touches a wall: walls block. */
  lemma StampKeepsWalls(g: Grid, p: Piece, place: bool)
    requires WellFormed(g) && Walled(g) && Fits(g, p)
    ensures Walled(Stamp(g, p, place))
  {
    forall i, j | 0 <= i < BOARD_HEIGHT && 0 <= j < BOARD_WIDTH && IsWall(i, j)
      ensures !Covers(p, i, j)
    {
      var r, c := i - p.pos.y, j - p.pos.x;
      if 0 <= r < 4 && 0 <= c < 4 {
        assert CellFits(g, p, r, c);
      }
    }
  }

  /** The same for the single-file version's spawn rule: its pieces lie inside the playable area. */
  lemma ClassicStampKeepsWalls(g: Grid, p: Piece, place: bool)
    requires WellFormed(g) && Walled(g) && ClassicSpawnFits(g, p)
    ensures Walled(Stamp(g, p, place))
  {
    forall i, j | 0 <= i < BOARD_HEIGHT && 0 <= j < BOARD_WIDTH && IsWall(i, j)
      ensures !Covers(p, i, j)
    {
      var r, c := i - p.pos.y, j - p.pos.x;
      if 0 <= r < 4 && 0 <= c < 4 {
        assert ClassicSpawnCellFits(g, p, r, c);
      }
    }
  }

  /** A legal single-file move is also a legal single-file spawn placement. */
  lemma ClassicMoveFitsImpliesSpawnFits(g: Grid, p: Piece)
    requires WellFormed(g) && ClassicMoveFits(g, p)
    ensures ClassicSpawnFits(g, p)
  {
    forall r: Coord, c: Coord ensures ClassicSpawnCellFits(g, p, r, c) {
      assert ClassicMoveCellFits(g, p, r, c);
    }
  }

  /** The single-file spawn rule leaves every covered board cell blank, so drawing and erasing the piece restores the grid. */
  lemma ClassicDrawEraseRestores(g: Grid, p: Piece)
    requires WellFormed(g) && ClassicSpawnFits(g, p)
    ensures Stamp(Stamp(g, p, true), p, false) == g
  {
    forall i, j | 0 <= i < BOARD_HEIGHT && 0 <= j < BOARD_WIDTH && Covers(p, i, j)
      ensures g[i][j] == ' '
    {
      assert ClassicSpawnCellFits(g, p, i - p.pos.y, j - p.pos.x);
    }
    EraseRestoresBlankFootprint(g, p);
  }

  /** Drawing a piece and erasing it again is the same as erasing it. */
  lemma DrawThenErase(g: Grid, p: Piece)
    requires WellFormed(g)
    ensures Stamp(Stamp(g, p, true), p, false) == Stamp(g, p, false)
  {
    var a, b := Stamp(Stamp(g, p, true), p, false), Stamp(g, p, false);
    forall i | 0 <= i < BOARD_HEIGHT ensures a[i] == b[i] {
      assert forall j | 0 <= j < BOARD_WIDTH :: a[i][j] == b[i][j];
    }
  }

  /** Erasing blanks exactly p's footprint; on a footprint that was blank, drawing then erasing restores the grid. */
  lemma EraseRestoresBlankFootprint(g: Grid, p: Piece)
    requires WellFormed(g)
    requires forall i, j | 0 <= i < BOARD_HEIGHT && 0 <= j < BOARD_WIDTH && Covers(p, i, j) :: g[i][j] == ' '
    ensures Stamp(Stamp(g, p, true), p, false) == g
  {
    DrawThenErase(g, p);
    var b := Stamp(g, p, false);
    forall i | 0 <= i < BOARD_HEIGHT ensures b[i] == g[i] {
      assert forall j | 0 <= j < BOARD_WIDTH :: b[i][j] == g[i][j];
    }
  }

  /** The safe stamp changes only blank cells and leaves every occupied cell as it was. */
  lemma SafeStampWritesOnlyBlanks(g: Grid, p: Piece)
    requires WellFormed(g)
    ensures forall i, j | 0 <= i < BOARD_HEIGHT && 0 <= j < BOARD_WIDTH ::
      StampSafe(g, p)[i][j] != g[i][j] ==> g[i][j] == ' ' && StampSafe(g, p)[i][j] != ' '
  {
  }

  /** A board cell that ghost marking dots: covered by p, on the board and blank. */
  predicate GetsDot(g: Grid, p: Piece, pos: Position)
    requires WellFormed(g)
  {
    InsideBoard(pos.x, pos.y) && Covers(p, pos.y, pos.x) && g[pos.y][pos.x] == ' '
  }

  /** Template cell (row, col) records pos exactly when pos gets a dot and sits under that cell. */
  lemma TrailAtMembers(g: Grid, p: Piece, row: Coord, col: Coord, pos: Position)
    requires WellFormed(g)
    ensures pos in TrailAt(g, p, row, col) <==>
      GetsDot(g, p, pos) && pos.y - p.pos.y == row && pos.x - p.pos.x == col
  {
  }

  /** The positions recorded before template cell (row, col) are exactly the earlier cells that get a dot. */
  lemma {:induction false} TrailUpToMembers(g: Grid, p: Piece, row: nat, col: nat, pos: Position)
    requires WellFormed(g) && row <= 4 && col <= 4 && (row < 4 || col == 0)
    ensures pos in TrailUpTo(g, p, row, col) <==>
      GetsDot(g, p, pos) && 4 * (pos.y - p.pos.y) + (pos.x - p.pos.x) < 4 * row + col
    decreases row, col
  {
    if col > 0 {
      TrailUpToMembers(g, p, row, col - 1, pos);
      TrailAtMembers(g, p, row, col - 1, pos);
      assert pos in TrailUpTo(g, p, row, col) <==>
        pos in TrailUpTo(g, p, row, col - 1) || pos in TrailAt(g, p, row, col - 1);
    } else if row > 0 {
      TrailUpToMembers(g, p, row - 1, 4, pos);
    }
  }

  /** Marking a ghost and then erasing the recorded dots gives back the original grid. */
  lemma GhostRoundTrip(g: Grid, p: Piece)
    requires WellFormed(g)
    ensures EraseDots(GhostStamp(g, p), GhostTrail(g, p)) == g
  {
    var marked := GhostStamp(g, p);
    var trail := GhostTrail(g, p);
    var h := EraseDots(marked, trail);
    forall i | 0 <= i < BOARD_HEIGHT ensures h[i] == g[i] {
      forall j | 0 <= j < BOARD_WIDTH ensures h[i][j] == g[i][j] {
        TrailUpToMembers(g, p, 4, 0, Position(j, i));
        assert h[i][j] == if Position(j, i) in trail && marked[i][j] == '.' then ' ' else marked[i][j];
        assert marked[i][j] == if Covers(p, i, j) && g[i][j] == ' ' then '.' else g[i][j];
      }
    }
  }

  /** The recorded trail holds exactly the cells that ghost marking turned from blank into a dot. */
  lemma GhostTrailRecordsDots(g: Grid, p: Piece, pos: Position)
    requires WellFormed(g)
    ensures pos in GhostTrail(g, p) <==>
      InsideBoard(pos.x, pos.y) && g[pos.y][pos.x] == ' ' && GhostStamp(g, p)[pos.y][pos.x] == '.'
  {
    TrailUpToMembers(g, p, 4, 0, pos);
  }

  /** Ghost marking writes only dots, and only into blank cells. */
  lemma GhostStampWritesOnlyBlanks(g: Grid, p: Piece)
    requires WellFormed(g)
    ensures forall i, j | 0 <= i < BOARD_HEIGHT && 0 <= j < BOARD_WIDTH ::
      GhostStamp(g, p)[i][j] != g[i][j] ==> g[i][j] == ' ' && GhostStamp(g, p)[i][j] == '.'
  {
  }

  /** Stamping one piece on a grid without full rows leaves at most four full rows. */
  lemma NoFullRowLockInRange(g: Grid, p: Piece)
    requires WellFormed(g) && NoFullRow(g)
    ensures LockInRange(g, p)
  {
    var h := Stamp(g, p, true);
    var before, after := Interior(g), Interior(h);
    forall k | 0 <= k < INTERIOR_HEIGHT && !(p.pos.y - 1 <= k < p.pos.y + 3)
      ensures !IsFull(after[k])
    {
      assert after[k] == before[k] by {
        forall j | 0 <= j < INTERIOR_WIDTH ensures after[k][j] == before[k][j] {
          assert !Covers(p, k + 1, j + 1);
        }
      }
    }
    FullRowsInWindow(after, p.pos.y - 1);
  }

  /** Erasing dots never changes which placements fit: dots do not block. */
  lemma ErasingDotsKeepsFits(g: Grid, marks: seq<Position>)
    requires WellFormed(g)
    ensures SameFits(g, EraseDots(g, marks))
  {
    var h := EraseDots(g, marks);
    forall p: Piece ensures Fits(g, p) == Fits(h, p) {
      forall r: Coord, c: Coord ensures CellFits(h, p, r, c) == CellFits(g, p, r, c) {
        var xt, yt := p.pos.x + c, p.pos.y + r;
        if 0 <= xt < BOARD_WIDTH && 0 <= yt < BOARD_HEIGHT {
          assert Blocking(h[yt][xt]) == Blocking(g[yt][xt]);
        }
      }
    }
  }

  /** Erasing dots only blanks cells, so it keeps the walls and makes no row full. */
  lemma ErasingDotsKeepsWallsAndRows(g: Grid, marks: seq<Position>)
    requires WellFormed(g)
    ensures Walled(g) ==> Walled(EraseDots(g, marks))
    ensures NoFullRow(g) ==> NoFullRow(EraseDots(g, marks))
    ensures NoDots(EraseDots(g, marks)) <==>
      forall i, j | 0 <= i < BOARD_HEIGHT && 0 <= j < BOARD_WIDTH && g[i][j] == '.' :: Position(j, i) in marks
  {
    var h := EraseDots(g, marks);
    assert forall i, j | 0 <= i < BOARD_HEIGHT && 0 <= j < BOARD_WIDTH ::
      (h[i][j] == '.') == (g[i][j] == '.' && Position(j, i) !in marks);
    if NoFullRow(g) {
      forall k | 0 <= k < INTERIOR_HEIGHT ensures !IsFull(Interior(h)[k]) {
        assert !IsFull(Interior(g)[k]);
        var j :| 0 <= j < INTERIOR_WIDTH && Interior(g)[k][j] == ' ';
        assert Interior(h)[k][j] == ' ';
      }
    }
  }

  /** Erasing changes nothing when no dot sits at a recorded position; in particular erasing an empty record. */
  lemma ErasingUnrecordedChangesNothing(g: Grid, marks: seq<Position>)
    requires WellFormed(g)
    requires forall i, j | 0 <= i < BOARD_HEIGHT && 0 <= j < BOARD_WIDTH && g[i][j] == '.' :: Position(j, i) !in marks
    ensures EraseDots(g, marks) == g
  {
    var h := EraseDots(g, marks);
    forall i | 0 <= i < BOARD_HEIGHT ensures h[i] == g[i] {
      assert forall j | 0 <= j < BOARD_WIDTH :: h[i][j] == g[i][j];
    }
  }

  /** Grids on which the same placements fit give the same landing row. */
  lemma LandingSameFits(g: Grid, h: Grid, p: Piece)
    requires WellFormed(g) && WellFormed(h) && SameFits(g, h)
    ensures Landing(g, p) == Landing(h, p)
  {
    var q, r := Landing(g, p), Landing(h, p);
    assert q.Moved(0, 1) == p.AtRow(q.pos.y + 1);
    assert r.Moved(0, 1) == p.AtRow(r.pos.y + 1);
    assert q.pos.y <= r.pos.y;
    assert r.pos.y <= q.pos.y;
  }

  /** Stamping writes letters or blanks, never a dot. */
  lemma StampKeepsNoDots(g: Grid, p: Piece, place: bool)
    requires WellFormed(g) && NoDots(g)
    ensures NoDots(Stamp(g, p, place))
  {
    forall i, j | 0 <= i < BOARD_HEIGHT && 0 <= j < BOARD_WIDTH && Covers(p, i, j)
      ensures SymbolAt(p, i, j) != '.'
    {
      CellsHoldTheKindsLetter(p.kind, p.rotation, i - p.pos.y, j - p.pos.x);
    }
  }

  /** Line clearing moves cells within their columns or blanks them, so it brings in no dot. */
  lemma ClearFullKeepsNoDots(g: Grid)
    requires WellFormed(g) && NoDots(g)
    ensures NoDots(ClearFull(g))
  {
    forall i, j | 0 <= i < BOARD_HEIGHT && 0 <= j < BOARD_WIDTH
      ensures ClearFull(g)[i][j] != '.'
    {
      ClearFullCellOrigin(g, i, j);
    }
  }

  /**
   * Drawing a fitting piece and erasing it again blanks its footprint. When
   * every dot on g is recorded in marks, this adds no dot and, once the
   * recorded dots are erased, leaves the grid as it was.
   */
  lemma DrawEraseOverRecordedDots(g: Grid, marks: seq<Position>, p: Piece)
    requires WellFormed(g) && Fits(g, p)
    requires forall i, j | 0 <= i < BOARD_HEIGHT && 0 <= j < BOARD_WIDTH && g[i][j] == '.' :: Position(j, i) in marks
    ensures EraseDots(Stamp(Stamp(g, p, true), p, false), marks) == EraseDots(g, marks)
    ensures forall i, j | 0 <= i < BOARD_HEIGHT && 0 <= j < BOARD_WIDTH && Stamp(Stamp(g, p, true), p, false)[i][j] == '.' ::
      g[i][j] == '.'
  {
    DrawThenErase(g, p);
    var b := Stamp(g, p, false);
    var x, y := EraseDots(b, marks), EraseDots(g, marks);
    forall i | 0 <= i < BOARD_HEIGHT ensures x[i] == y[i] {
      forall j | 0 <= j < BOARD_WIDTH ensures x[i][j] == y[i][j] {
        if Covers(p, i, j) {
          assert CellFits(g, p, i - p.pos.y, j - p.pos.x);
        }
      }
    }
  }
}
