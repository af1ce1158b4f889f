/**
 * A concrete game showing why a lock must erase the ghost dots first. The
 * frame's ghost refresh dots a deep well; on the next frame a rotation kicks
 * the piece sideways and gravity locks it. The source's lock then counts the
 * dotted rows as full: five rows in all, one more than the score table
 * covers. With the recorded dots erased first, the same lock clears one row.
 */
module StaleGhost {
  import opened Geometry
  import opened Pieces
  import opened Playfield
  import opened Collision
  import opened GameStates
  import opened Scoring
  import opened Input
  import opened TetrisRules

  /**
   * The example board: rows 11..18 filled in columns 1..12, row 10 filled in
   * columns 1..9, column 13 empty down to the bottom wall.
   */
  function WellCell(i: int, j: int): char
  {
    if IsWall(i, j) then '#'
    else if 11 <= i <= 18 && 1 <= j <= 12 then 'O'
    else if i == 10 && 1 <= j <= 9 then 'O'
    else ' '
  }

  function WellGrid(): (g: Grid)
    ensures WellFormed(g)
  {
    seq(BOARD_HEIGHT, i => seq(BOARD_WIDTH, j => WellCell(i, j)))
  }

  /** The example board with the ghost of an upright I dotted at the bottom of the well. */
  function DottedCell(i: int, j: int): char
  {
    if j == 13 && 15 <= i <= 18 then '.' else WellCell(i, j)
  }

  function DottedGrid(): (g: Grid)
    ensures WellFormed(g)
  {
    seq(BOARD_HEIGHT, i => seq(BOARD_WIDTH, j => DottedCell(i, j)))
  }

  /** An upright I whose cells are in column 13, rows y .. y + 3. */
  function Upright(y: int): Piece
  {
    Piece(0, 0, Position(12, y))
  }

  /** The flat I the rotation commits: row 10, columns 10 .. 13. */
  const FLAT: Piece := Piece(0, 1, Position(10, 9))

  /** The game before the first frame: an upright I at the top of the well, one sub-tick before the last idle one. */
  function Start(): Snapshot
  {
    Snapshot(WellGrid(), INITIAL_STATE, Upright(9), 0, BASE_DROP_SPEED_US, DROP_INTERVAL_TICKS - 2, [])
  }

  /** After a frame with no key, and the next frame's key 'w'. */
  function AfterTurn(roll: PieceKind, stray: int): Snapshot
  {
    IShape();
    HandleInput(Frame(Start(), NO_KEY, roll, roll, stray), 'w', roll, stray)
  }

  /** The game just before the second frame's gravity step. */
  function Turned(): Snapshot
  {
    Start().(grid := DottedGrid(), ghosts := GhostTrail(WellGrid(), Upright(15)),
      dropCounter := DROP_INTERVAL_TICKS - 1, piece := FLAT)
  }

  // ----- lemmas -----

  /** The I template: upright it fills column 1, turned once it fills row 1. */
  lemma IShape()
    ensures forall r: Coord, c: Coord :: Filled(0, 0, r, c) <==> c == 1
    ensures forall r: Coord, c: Coord :: Filled(0, 1, r, c) <==> r == 1
    ensures forall r: Coord, c: Coord :: CellAt(0, 1, r, c) in {' ', 'I'}
  {
    forall r: Coord, c: Coord
      ensures (Filled(0, 0, r, c) <==> c == 1) && (Filled(0, 1, r, c) <==> r == 1)
      ensures CellAt(0, 1, r, c) in {' ', 'I'}
    {
      assert TETROMINOES[0][r] == [0, 1, 0, 0] by {
        assert r == 0 || r == 1 || r == 2 || r == 3;
      }
      assert TETROMINOES[0][3 - c] == [0, 1, 0, 0] by {
        assert c == 0 || c == 1 || c == 2 || c == 3;
      }
    }
  }

  /** The example board is walled, has no dot and no full row. */
  lemma WellGridIsClean()
    ensures Walled(WellGrid()) && NoDots(WellGrid()) && NoFullRow(WellGrid())
  {
    var g := WellGrid();
    forall k | 0 <= k < INTERIOR_HEIGHT ensures !IsFull(Interior(g)[k]) {
      assert Interior(g)[k][12] == g[k + 1][13] == ' ';
    }
  }

  /** An upright I fits in column 13 wherever its four rows are blank or dotted. */
  lemma UprightFits(g: Grid, y: int)
    requires WellFormed(g) && 0 <= y && y + 3 < BOARD_HEIGHT
    requires forall i | y <= i < y + 4 :: !Blocking(g[i][13])
    ensures Fits(g, Upright(y))
  {
    IShape();
  }

  /** In the example well an upright I fits from row 9 down to row 15, and not at row 16. */
  lemma WellLanding()
    ensures Landing(WellGrid(), Upright(9)) == Upright(15)
  {
    var g := WellGrid();
    IShape();
    forall y | 9 < y <= 15 ensures Fits(g, Upright(9).AtRow(y)) {
      UprightFits(g, y);
    }
    assert !CellFits(g, Upright(16), 3, 1);
    var q := Landing(g, Upright(9));
    assert q.Moved(0, 1) == Upright(q.pos.y + 1);
    assert q.pos.y <= 15;
    assert q.pos.y >= 15;
  }

  /** Ghost marking the landed I dots rows 15..18 of column 13. */
  lemma WellGhost()
    ensures GhostStamp(WellGrid(), Upright(15)) == DottedGrid()
  {
    IShape();
    var h, d := GhostStamp(WellGrid(), Upright(15)), DottedGrid();
    forall i | 0 <= i < BOARD_HEIGHT ensures h[i] == d[i] {
      forall j | 0 <= j < BOARD_WIDTH ensures h[i][j] == d[i][j] {
        assert Covers(Upright(15), i, j) <==> j == 13 && 15 <= i <= 18;
      }
    }
  }

  /** The first frame: gravity counts its fourth idle sub-tick and the refresh dots the well; drawing and erasing the piece touches no dot. */
  lemma FirstFrame(roll: PieceKind, stray: int)
    ensures ColumnsInRange(Upright(9))
    ensures Frame(Start(), NO_KEY, roll, roll, stray)
      == Start().(grid := DottedGrid(), ghosts := GhostTrail(WellGrid(), Upright(15)), dropCounter := DROP_INTERVAL_TICKS - 1)
  {
    IShape();
    WellGridIsClean();
    ErasingUnrecordedChangesNothing(WellGrid(), []);
    WellLanding();
    WellGhost();
    forall i, j | 0 <= i < BOARD_HEIGHT && 0 <= j < BOARD_WIDTH && Covers(Upright(9), i, j)
      ensures DottedGrid()[i][j] == ' '
    {
      assert j == 13 && 9 <= i <= 12;
    }
    EraseRestoresBlankFootprint(DottedGrid(), Upright(9));
  }

  /** On the dotted board the quarter-turn of the upright I fails at kicks 0, -1 and 1 and commits kick -2. */
  lemma TurnKicksLeft()
    ensures Rotated(DottedGrid(), Upright(9)) == FLAT
    ensures Fits(DottedGrid(), FLAT) && !Fits(DottedGrid(), FLAT.Moved(0, 1))
  {
    var g, p := DottedGrid(), Upright(9);
    IShape();
    assert NextRotation(p.rotation) == 1;
    assert !CellFits(g, p.Placed(KICKS[0], 0, 1), 1, 3);
    assert !CellFits(g, p.Placed(KICKS[1], 0, 1), 1, 3);
    assert !CellFits(g, p.Placed(KICKS[2], 0, 1), 1, 2);
    assert p.Placed(KICKS[3], 0, 1) == FLAT;
    RotationTakesFirstFittingKick(g, p, 3);
    assert !CellFits(g, FLAT.Moved(0, 1), 1, 0);
  }

  /** Stamping the flat I on the dotted board: row 10 gets its letters, the rest is unchanged. */
  lemma FlatStamp()
    ensures forall i, j | 0 <= i < BOARD_HEIGHT && 0 <= j < BOARD_WIDTH ::
      Stamp(DottedGrid(), FLAT, true)[i][j] == if i == 10 && 10 <= j <= 13 then 'I' else DottedCell(i, j)
  {
    IShape();
    forall i, j | 0 <= i < BOARD_HEIGHT && 0 <= j < BOARD_WIDTH
      ensures Stamp(DottedGrid(), FLAT, true)[i][j] == if i == 10 && 10 <= j <= 13 then 'I' else DottedCell(i, j)
    {
      assert Covers(FLAT, i, j) <==> i == 10 && 10 <= j <= 13;
    }
  }

  /** Dropping a prefix of rows never raises the count of full rows. */
  lemma {:induction false} CountFullSuffix(rows: seq<Row>, k: nat)
    requires k <= |rows|
    ensures CountFull(rows[k..]) <= CountFull(rows)
    decreases k
  {
    if k > 0 {
      CountFullSuffix(rows[1..], k - 1);
      assert rows[1..][k - 1..] == rows[k..];
    }
  }

  /** A full row at the head of a suffix counts once more than the suffix after it. */
  lemma CountFullStep(rows: seq<Row>, k: nat)
    requires k < |rows| && IsFull(rows[k])
    ensures CountFull(rows[k..]) == 1 + CountFull(rows[k + 1..])
  {
    assert rows[k..][1..] == rows[k + 1..];
  }

  /** As written, the lock of the flat I finds five full interior rows: row 10 and the four dotted rows 15..18. */
  lemma FiveRowsCounted()
    ensures CountFull(Interior(Stamp(DottedGrid(), FLAT, true))) >= 5
  {
    FlatStamp();
    var rows := Interior(Stamp(DottedGrid(), FLAT, true));
    forall k | k == 9 || 14 <= k <= 17 ensures IsFull(rows[k]) {
      assert forall j | 0 <= j < INTERIOR_WIDTH :: rows[k][j] != ' ';
    }
    CountFullStep(rows, 9);
    CountFullSuffix(rows[10..], 4);
    assert rows[10..][4..] == rows[14..];
    CountFullStep(rows, 14);
    CountFullStep(rows, 15);
    CountFullStep(rows, 16);
    CountFullStep(rows, 17);
    CountFullSuffix(rows, 9);
  }

  /** The game before the first frame is consistent and has no dot on the board. */
  lemma StartIsConsistent()
    ensures ConsistentModuloDots(Start())
  {
    IShape();
    WellGridIsClean();
    ErasingUnrecordedChangesNothing(WellGrid(), []);
    UprightFits(WellGrid(), 9);
  }

  /** Outside a pause, the key 'w' only turns the piece. */
  lemma TurnKey(s: Snapshot, roll: PieceKind, stray: int)
    requires WellFormed(s.grid) && !s.state.paused
    ensures HandleInput(s, 'w', roll, stray) == s.(piece := Rotated(s.grid, s.piece))
  {
  }

  /** The two frames' effect up to the second frame's gravity step: the dotted board, the flat I, the last idle sub-tick. */
  lemma AfterTurnIsTurned(roll: PieceKind, stray: int)
    ensures AfterTurn(roll, stray) == Turned()
  {
    var s1 := Start().(grid := DottedGrid(), ghosts := GhostTrail(WellGrid(), Upright(15)), dropCounter := DROP_INTERVAL_TICKS - 1);
    FirstFrame(roll, stray);
    TurnKey(s1, roll, stray);
    TurnKicksLeft();
    assert s1.(piece := FLAT) == Turned();
  }

  /** With the recorded dots erased, the dotted board is the example board again. */
  lemma TurnedCleaned()
    ensures Cleaned(Turned()).grid == WellGrid()
  {
    WellGhost();
    GhostRoundTrip(WellGrid(), Upright(15));
  }

  /**
   * The game starts consistent with nothing recorded. After a frame with no
   * key and a 'w' on the next frame, that frame's gravity step locks the
   * flat I. As written, the lock counts five rows and the score grows by
   * `stray` times the level, read past the table. With the recorded dots
   * erased first, it stays within the table.
   */
  lemma StaleDotsCountFiveRows(roll: PieceKind, stray: int)
    ensures ConsistentModuloDots(Start()) && Start().state.running && Start().ghosts == []
    ensures AfterTurn(roll, stray) == Turned()
    ensures Turned().state.running && !Turned().state.paused && Turned().dropCounter == DROP_INTERVAL_TICKS - 1
    ensures HandleGravity(Turned(), roll, stray) == Lock(Turned().(dropCounter := 0), roll, stray)
    ensures CountFull(Interior(Stamp(Turned().grid, Turned().piece, true))) >= 5
    ensures LockAsWritten(Turned().(dropCounter := 0), roll, stray).state.score
      == Turned().state.score + stray * Turned().state.level
    ensures LockInRange(Cleaned(Turned()).grid, Turned().piece)
  {
    StartIsConsistent();
    AfterTurnIsTurned(roll, stray);
    TurnKicksLeft();
    FiveRowsCounted();
    TurnedCleaned();
    WellGridIsClean();
    NoFullRowLockInRange(WellGrid(), FLAT);
  }
}
