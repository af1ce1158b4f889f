/**
 * The modular game's state machine as functions on a snapshot of the whole
 * controller state: spawning, locking, the drops, rotation with wall kicks,
 * key dispatch, gravity sub-ticks, restart and the per-frame ghost refresh.
 * The random generator's next draw is an argument `roll`.
 */
module TetrisRules {
  import opened Geometry
  import opened Pieces
  import opened Playfield
  import opened Collision
  import opened GameStates
  import opened Scoring
  import opened Input

  /** Every field of the controller together with the grid. */
  datatype Snapshot = Snapshot(
    grid: Grid,
    state: GameState,
    piece: Piece,
    next: PieceKind,
    dropSpeedUs: int,
    dropCounter: int,
    ghosts: seq<Position>)

  /** Horizontal offsets tried, in order, when a rotation does not fit where it is. */
  const KICKS: seq<int> := [0, -1, 1, -2, 2, -3, 3]

  /** The snapshot with every recorded ghost dot erased and the record emptied, as clearAllGhostDots leaves it. */
  function Cleaned(s: Snapshot): Snapshot
    requires WellFormed(s.grid)
  {
    s.(grid := EraseDots(s.grid, s.ghosts), ghosts := [])
  }

  /** The next piece enters; when it does not fit, the game ends and the pending kind is kept, else a new kind is drawn. */
  function Spawn(s: Snapshot, roll: PieceKind): (s': Snapshot)
    requires WellFormed(s.grid)
    ensures s'.piece == SpawnPiece(s.next) && s'.grid == s.grid
    ensures s'.state.running ==> Fits(s'.grid, s'.piece)
    ensures s'.state.running <==> s.state.running && Fits(s.grid, s'.piece)
  {
    var spawn := SpawnPiece(s.next);
    if !Fits(s.grid, spawn) then
      s.(piece := spawn, state := s.state.(running := false))
    else
      s.(piece := spawn, next := roll)
  }

  /**
   * Locking as the source writes it: stamps the current piece on the board as
   * it stands, ghost dots included, clears the full rows (a dot is not a
   * blank, so it counts as filled), scores them, adjusts the gravity period
   * after a clear, and spawns the next piece. When more than four rows are
   * counted, the score lookup reads past the five-entry table: `stray` is the
   * value found there.
   */
  function LockAsWritten(s: Snapshot, roll: PieceKind, stray: int): (s': Snapshot)
    requires WellFormed(s.grid)
    ensures WellFormed(s'.grid) && s'.ghosts == s.ghosts
    ensures s'.piece == SpawnPiece(s.next)
    ensures s'.state.linesCleared == s.state.linesCleared + CountFull(Interior(Stamp(s.grid, s.piece, true)))
  {
    var stamped := Stamp(s.grid, s.piece, true);
    var lines := CountFull(Interior(stamped));
    var st := AfterLock(s.state, lines, stray);
    var speed := if lines > 0 then ComputeDropSpeedUs(st.level) else s.dropSpeedUs;
    Spawn(s.(grid := ClearFull(stamped), state := st, dropSpeedUs := speed), roll)
  }

  /**
   * Locking as intended: the recorded ghost dots are erased first, so a dot
   * never counts as a filled cell; then the piece is locked as above.
   */
  function Lock(s: Snapshot, roll: PieceKind, stray: int): (s': Snapshot)
    requires WellFormed(s.grid)
    ensures WellFormed(s'.grid) && s'.ghosts == []
    ensures s'.piece == SpawnPiece(s.next)
  {
    LockAsWritten(Cleaned(s), roll, stray)
  }

  /** Ends the game without locking: what happens when a piece is blocked while still above the board. */
  function Stop(s: Snapshot): Snapshot
  {
    s.(state := s.state.(running := false))
  }

  /** One row down if that fits; otherwise game over above the board, else lock and restart the sub-tick count. */
  function SoftDrop(s: Snapshot, roll: PieceKind, stray: int): (s': Snapshot)
    requires WellFormed(s.grid)
    ensures WellFormed(s'.grid)
  {
    var down := s.piece.Moved(0, 1);
    if Fits(s.grid, down) then s.(piece := down)
    else if s.piece.pos.y < 0 then Stop(s)
    else Lock(s, roll, stray).(dropCounter := 0)
  }

  /** Moves to the landing row; game over if that is above the board, else lock and restart the sub-tick count. */
  function HardDrop(s: Snapshot, roll: PieceKind, stray: int): (s': Snapshot)
    requires WellFormed(s.grid)
    ensures WellFormed(s'.grid)
  {
    var landed := s.(piece := Landing(s.grid, s.piece));
    if landed.piece.pos.y < 0 then Stop(landed)
    else Lock(landed, roll, stray).(dropCounter := 0)
  }

  /** The rotated piece at the first kick, from index k on, that fits; the piece itself when none does. */
  function KickFrom(g: Grid, p: Piece, newRot: Rotation, k: nat): (q: Piece)
    requires WellFormed(g) && k <= |KICKS|
    ensures q == p || (Fits(g, q) && q == p.Placed(q.pos.x - p.pos.x, 0, newRot) && q.pos.x - p.pos.x in KICKS[k..])
    decreases |KICKS| - k
  {
    if k == |KICKS| then p
    else if Fits(g, p.Placed(KICKS[k], 0, newRot)) then p.Placed(KICKS[k], 0, newRot)
    else KickFrom(g, p, newRot, k + 1)
  }

  /** A clockwise quarter-turn with wall kicks. */
  function Rotated(g: Grid, p: Piece): (q: Piece)
    requires WellFormed(g)
  {
    KickFrom(g, p, NextRotation(p.rotation), 0)
  }

  /** The piece shifted sideways by dx if that fits, else unchanged. */
  function Shifted(g: Grid, p: Piece, dx: int): (q: Piece)
    requires WellFormed(g)
  {
    if Fits(g, p.Moved(dx, 0)) then p.Moved(dx, 0) else p
  }

  function Quit(s: Snapshot): Snapshot
  {
    s.(state := s.state.(running := false, quitByUser := true))
  }

  /**
   * One decoded key: pause and ghost toggles act even while paused; while
   * paused only quitting acts; otherwise move, drop, rotate or quit.
   */
  function HandleInput(s: Snapshot, c: char, roll: PieceKind, stray: int): (s': Snapshot)
    requires WellFormed(s.grid)
    ensures WellFormed(s'.grid)
  {
    if c == NO_KEY then s
    else if c == 'p' then s.(state := s.state.(paused := !s.state.paused))
    else if c == 'g' then s.(state := s.state.(ghostEnabled := !s.state.ghostEnabled))
    else if s.state.paused then (if c == 'q' then Quit(s) else s)
    else if c == 'a' then s.(piece := Shifted(s.grid, s.piece, -1))
    else if c == 'd' then s.(piece := Shifted(s.grid, s.piece, 1))
    else if c == 's' then SoftDrop(s, roll, stray)
    else if c == ' ' then HardDrop(s, roll, stray)
    else if c == 'w' then s.(piece := Rotated(s.grid, s.piece))
    else if c == 'q' then Quit(s)
    else s
  }

  /**
   * One logic step of gravity: nothing when stopped or paused; otherwise the
   * sub-tick count advances, and on reaching DROP_INTERVAL_TICKS it restarts
   * and the piece moves down, ends the game above the board, or locks.
   */
  function HandleGravity(s: Snapshot, roll: PieceKind, stray: int): (s': Snapshot)
    requires WellFormed(s.grid)
    ensures WellFormed(s'.grid)
  {
    if !s.state.running || s.state.paused then s
    else if s.dropCounter + 1 < DROP_INTERVAL_TICKS then s.(dropCounter := s.dropCounter + 1)
    else
      var t := s.(dropCounter := 0);
      var down := t.piece.Moved(0, 1);
      if Fits(t.grid, down) then t.(piece := down)
      else if t.piece.pos.y < 0 then Stop(t)
      else Lock(t, roll, stray)
  }

  /** A restart: fresh statistics and board, the sub-tick count at zero, a pre-drawn next kind, then a spawn. */
  function Reset(s: Snapshot, firstRoll: PieceKind, roll: PieceKind): (s': Snapshot)
  {
    var st := s.state.(running := true, paused := false, quitByUser := false, score := 0, level := 1, linesCleared := 0);
    Spawn(s.(state := st, grid := InitialGrid(), dropCounter := 0, next := firstRoll), roll)
  }

  /** The start of every round: a fresh board, a pre-drawn next kind, the level's gravity period, then a spawn. */
  function StartRound(s: Snapshot, firstRoll: PieceKind, roll: PieceKind): (s': Snapshot)
  {
    Spawn(s.(grid := InitialGrid(), next := firstRoll, dropSpeedUs := ComputeDropSpeedUs(s.state.level)), roll)
  }

  /**
   * The per-frame ghost update: erase the recorded dots, then, when the
   * ghost is enabled and the landing row differs from the piece's row, dot
   * the landing footprint and record the dotted cells.
   */
  function RefreshGhost(s: Snapshot): (s': Snapshot)
    requires WellFormed(s.grid) && ColumnsInRange(s.piece)
    ensures WellFormed(s'.grid)
  {
    var cleaned := EraseDots(s.grid, s.ghosts);
    var shadow := Landing(cleaned, s.piece);
    if s.state.ghostEnabled && shadow.pos.y != s.piece.pos.y then
      s.(grid := GhostStamp(cleaned, shadow), ghosts := GhostTrail(cleaned, shadow))
    else
      s.(grid := cleaned, ghosts := [])
  }

  /**
   * One pass of the main loop: a key; nothing more while paused or once the
   * game has stopped; else gravity, the ghost refresh, and the piece drawn
   * into the grid for display and erased again.
   */
  function Frame(s: Snapshot, c: char, roll: PieceKind, gravityRoll: PieceKind, stray: int): (s': Snapshot)
    requires WellFormed(s.grid) && ColumnsInRange(s.piece)
    ensures WellFormed(s'.grid)
  {
    var t := HandleInput(s, c, roll, stray);
    if t.state.paused || !t.state.running then t
    else
      InputKeepsColumns(s, c, roll, stray);
      var u := HandleGravity(t, gravityRoll, stray);
      GravityKeepsColumns(t, gravityRoll, stray);
      var v := RefreshGhost(u);
      v.(grid := Stamp(Stamp(v.grid, v.piece, true), v.piece, false))
  }

  /** Applies gravity n times with the same draw. */
  function GravityTicks(s: Snapshot, roll: PieceKind, stray: int, n: nat): Snapshot
    requires Consistent(s)
    decreases n
  {
    if n == 0 then s
    else
      GravityKeepsConsistent(s, roll, stray);
      GravityTicks(HandleGravity(s, roll, stray), roll, stray, n - 1)
  }

  /**
   * The invariant of a game in progress: the level follows the line total,
   * the score is non-negative, the sub-tick count is below the interval, the
   * piece's columns are on the board, the walls stand, no interior row is
   * full, and a running game's piece fits.
   */
  predicate Consistent(s: Snapshot)
  {
    WellFormed(s.grid) && Walled(s.grid) && LevelTracksLines(s.state) && s.state.score >= 0
    && 0 <= s.dropCounter < DROP_INTERVAL_TICKS
    && ColumnsInRange(s.piece)
    && NoFullRow(s.grid)
    && (s.state.running ==> Fits(s.grid, s.piece))
  }

  /** Every ghost dot on the board sits at a recorded position. */
  predicate DotsRecorded(s: Snapshot)
    requires WellFormed(s.grid)
  {
    forall i, j | 0 <= i < BOARD_HEIGHT && 0 <= j < BOARD_WIDTH && s.grid[i][j] == '.' :: Position(j, i) in s.ghosts
  }

  /**
   * The invariant between frames, when ghost dots may be on the board: every
   * dot is recorded, and with the recorded dots erased the game is consistent.
   */
  predicate ConsistentModuloDots(s: Snapshot)
  {
    WellFormed(s.grid) && DotsRecorded(s) && Consistent(Cleaned(s))
  }

  // ----- lemmas -----

  /** A spawn leaves the next kind as it was exactly when it ends the game. */
  lemma SpawnKeepsNextOnlyOnFailure(s: Snapshot, roll: PieceKind)
    requires WellFormed(s.grid) && s.state.running
    ensures !Spawn(s, roll).state.running ==> Spawn(s, roll).next == s.next
    ensures Spawn(s, roll).state.running ==> Spawn(s, roll).next == roll
    ensures Spawn(s, roll).piece == Piece(s.next, 0, Position(5, -1))
  {
    SpawnColumnsInRange(s.next);
  }

  /**
   * A lock as written keeps the level in step and never lowers it, leaves no
   * full row, and adds the counted rows to the total; while the count stays
   * within the score table it never lowers the score.
   */
  lemma LockProgress(s: Snapshot, roll: PieceKind, stray: int)
    requires WellFormed(s.grid) && LevelTracksLines(s.state) && s.state.score >= 0
    ensures LevelTracksLines(LockAsWritten(s, roll, stray).state)
    ensures LockAsWritten(s, roll, stray).state.level >= s.state.level
    ensures LockInRange(s.grid, s.piece) ==> LockAsWritten(s, roll, stray).state.score >= s.state.score
    ensures NoFullRow(LockAsWritten(s, roll, stray).grid)
    ensures LockAsWritten(s, roll, stray).dropSpeedUs == s.dropSpeedUs
      || LockAsWritten(s, roll, stray).dropSpeedUs == ComputeDropSpeedUs(LockAsWritten(s, roll, stray).state.level)
  {
    var stamped := Stamp(s.grid, s.piece, true);
    AfterLockKeepsLevelInStep(s.state, CountFull(Interior(stamped)), stray);
    ClearFullLeavesNoFullRow(stamped);
  }

  /**
   * With the recorded dots erased first, a lock on a board without full rows
   * clears at most four rows: the score table is never read past its end, so
   * the result does not depend on `stray`, and score and level never drop.
   */
  lemma LockClearsAtMostFourRows(s: Snapshot, roll: PieceKind, stray: int)
    requires WellFormed(s.grid) && NoFullRow(Cleaned(s).grid)
    ensures LockInRange(Cleaned(s).grid, s.piece)
    ensures Lock(s, roll, stray) == Lock(s, roll, 0)
    ensures LevelTracksLines(s.state) && s.state.score >= 0 ==>
      Lock(s, roll, stray).state.score >= s.state.score && Lock(s, roll, stray).state.level >= s.state.level
  {
    var cs := Cleaned(s);
    NoFullRowLockInRange(cs.grid, s.piece);
    var lines := CountFull(Interior(Stamp(cs.grid, s.piece, true)));
    assert AfterLock(cs.state, lines, stray) == AfterLock(cs.state, lines, 0);
    if LevelTracksLines(s.state) && s.state.score >= 0 {
      LockProgress(cs, roll, stray);
    }
  }

  /** Erasing the recorded dots gives a clean snapshot: erasing again changes nothing, and a lock leaves nothing to erase. */
  lemma LockIgnoresDots(s: Snapshot, roll: PieceKind, stray: int)
    requires WellFormed(s.grid)
    ensures Cleaned(Cleaned(s)) == Cleaned(s)
    ensures Cleaned(Lock(s, roll, stray)) == Lock(s, roll, stray)
    ensures Lock(Cleaned(s), roll, stray) == Lock(s, roll, stray)
    ensures DotsRecorded(s) ==> NoDots(Lock(s, roll, stray).grid)
  {
    var cs := Cleaned(s);
    ErasingUnrecordedChangesNothing(cs.grid, []);
    var l := Lock(s, roll, stray);
    ErasingUnrecordedChangesNothing(l.grid, []);
    if DotsRecorded(s) {
      ErasingDotsKeepsWallsAndRows(s.grid, s.ghosts);
      StampKeepsNoDots(cs.grid, s.piece, true);
      ClearFullKeepsNoDots(Stamp(cs.grid, s.piece, true));
    }
  }

  /** Rotation commits the first kick, in table order, whose rotated placement fits. */
  lemma RotationTakesFirstFittingKick(g: Grid, p: Piece, k: nat)
    requires WellFormed(g) && k < |KICKS|
    requires Fits(g, p.Placed(KICKS[k], 0, NextRotation(p.rotation)))
    requires forall m | 0 <= m < k :: !Fits(g, p.Placed(KICKS[m], 0, NextRotation(p.rotation)))
    ensures Rotated(g, p) == p.Placed(KICKS[k], 0, NextRotation(p.rotation))
  {
    var newRot := NextRotation(p.rotation);
    var m := 0;
    while m < k
      invariant 0 <= m <= k
      invariant KickFrom(g, p, newRot, m) == KickFrom(g, p, newRot, 0)
    {
      assert !Fits(g, p.Placed(KICKS[m], 0, newRot));
      m := m + 1;
    }
  }

  /** Rotation leaves the piece unchanged exactly when no kick fits; otherwise the turned piece fits. */
  lemma RotationFailsOnlyWhenNoKickFits(g: Grid, p: Piece)
    requires WellFormed(g)
    ensures Rotated(g, p) == p <==> forall m | 0 <= m < |KICKS| :: !Fits(g, p.Placed(KICKS[m], 0, NextRotation(p.rotation)))
    ensures Rotated(g, p) != p ==> Fits(g, Rotated(g, p)) && Rotated(g, p).rotation == NextRotation(p.rotation)
  {
    var newRot := NextRotation(p.rotation);
    if exists m | 0 <= m < |KICKS| :: Fits(g, p.Placed(KICKS[m], 0, newRot)) {
      var m :| 0 <= m < |KICKS| && Fits(g, p.Placed(KICKS[m], 0, newRot));
      var f := 0;
      while !Fits(g, p.Placed(KICKS[f], 0, newRot))
        invariant 0 <= f <= m
        invariant forall e | 0 <= e < f :: !Fits(g, p.Placed(KICKS[e], 0, newRot))
        decreases m - f
      {
        f := f + 1;
      }
      RotationTakesFirstFittingKick(g, p, f);
    } else {
      var k := |KICKS|;
      while k > 0
        invariant 0 <= k <= |KICKS|
        invariant KickFrom(g, p, newRot, k) == p
      {
        k := k - 1;
      }
    }
  }

  /** Spawning from a consistent state (or one whose piece is about to be replaced) gives a consistent state. */
  lemma SpawnConsistent(s: Snapshot, roll: PieceKind)
    requires WellFormed(s.grid) && LevelTracksLines(s.state) && s.state.score >= 0
    requires 0 <= s.dropCounter < DROP_INTERVAL_TICKS && NoFullRow(s.grid) && Walled(s.grid)
    ensures Consistent(Spawn(s, roll))
  {
    SpawnColumnsInRange(s.next);
  }

  /** Erasing the recorded dots keeps a consistent state consistent. */
  lemma CleanedKeepsConsistent(s: Snapshot)
    requires Consistent(s)
    ensures Consistent(Cleaned(s))
  {
    ErasingDotsKeepsFits(s.grid, s.ghosts);
    ErasingDotsKeepsWallsAndRows(s.grid, s.ghosts);
  }

  /** Locking a fitting piece from a consistent state gives a consistent state. */
  lemma LockConsistent(s: Snapshot, roll: PieceKind, stray: int)
    requires Consistent(s) && Fits(s.grid, s.piece)
    ensures Consistent(Lock(s, roll, stray))
  {
    var cs := Cleaned(s);
    CleanedKeepsConsistent(s);
    ErasingDotsKeepsFits(s.grid, s.ghosts);
    var stamped := Stamp(cs.grid, s.piece, true);
    StampKeepsWalls(cs.grid, s.piece, true);
    ClearFullKeepsWalls(stamped);
    var lines := CountFull(Interior(stamped));
    NoFullRowLockInRange(cs.grid, s.piece);
    var st := AfterLock(cs.state, lines, stray);
    var speed := if lines > 0 then ComputeDropSpeedUs(st.level) else cs.dropSpeedUs;
    AfterLockKeepsLevelInStep(cs.state, lines, stray);
    ClearFullLeavesNoFullRow(stamped);
    SpawnConsistent(cs.(grid := ClearFull(stamped), state := st, dropSpeedUs := speed), roll);
  }

  /** Every key keeps a running consistent game consistent: in particular its piece always fits and the walls stand. */
  lemma InputKeepsConsistent(s: Snapshot, c: char, roll: PieceKind, stray: int)
    requires Consistent(s) && s.state.running
    ensures Consistent(HandleInput(s, c, roll, stray))
  {
    if c == NO_KEY || c == 'p' || c == 'g' || s.state.paused {
    } else if c == 'a' || c == 'd' {
      var dx := if c == 'a' then -1 else 1;
      if Fits(s.grid, s.piece.Moved(dx, 0)) {
        FitsColumnsInRange(s.grid, s.piece.Moved(dx, 0));
      }
    } else if c == 's' {
      var down := s.piece.Moved(0, 1);
      if Fits(s.grid, down) {
        FitsColumnsInRange(s.grid, down);
      } else if s.piece.pos.y >= 0 {
        LockConsistent(s, roll, stray);
      }
    } else if c == ' ' {
      var landed := s.(piece := Landing(s.grid, s.piece));
      assert ColumnsInRange(landed.piece);
      if landed.piece.pos.y >= 0 {
        LockConsistent(landed, roll, stray);
      }
    } else if c == 'w' {
      RotationFailsOnlyWhenNoKickFits(s.grid, s.piece);
      if Rotated(s.grid, s.piece) != s.piece {
        FitsColumnsInRange(s.grid, Rotated(s.grid, s.piece));
      }
    }
  }

  /** Gravity keeps a consistent game consistent. */
  lemma GravityKeepsConsistent(s: Snapshot, roll: PieceKind, stray: int)
    requires Consistent(s)
    ensures Consistent(HandleGravity(s, roll, stray))
  {
    if s.state.running && !s.state.paused && s.dropCounter + 1 >= DROP_INTERVAL_TICKS {
      var t := s.(dropCounter := 0);
      var down := t.piece.Moved(0, 1);
      if Fits(t.grid, down) {
        FitsColumnsInRange(t.grid, down);
      } else if t.piece.pos.y >= 0 {
        LockConsistent(t, roll, stray);
      }
    }
  }

  /** Every key keeps the piece's columns on the board: moves only commit fitting placements and spawns start in the ceiling gap. */
  lemma InputKeepsColumns(s: Snapshot, c: char, roll: PieceKind, stray: int)
    requires WellFormed(s.grid) && ColumnsInRange(s.piece)
    ensures ColumnsInRange(HandleInput(s, c, roll, stray).piece)
  {
    SpawnColumnsInRange(s.next);
    if c == NO_KEY || c == 'p' || c == 'g' || s.state.paused {
    } else if c == 'a' || c == 'd' {
      var dx := if c == 'a' then -1 else 1;
      if Fits(s.grid, s.piece.Moved(dx, 0)) {
        FitsColumnsInRange(s.grid, s.piece.Moved(dx, 0));
      }
    } else if c == 's' {
      if Fits(s.grid, s.piece.Moved(0, 1)) {
        FitsColumnsInRange(s.grid, s.piece.Moved(0, 1));
      }
    } else if c == ' ' {
      assert ColumnsInRange(Landing(s.grid, s.piece));
    } else if c == 'w' {
      RotationFailsOnlyWhenNoKickFits(s.grid, s.piece);
      if Rotated(s.grid, s.piece) != s.piece {
        FitsColumnsInRange(s.grid, Rotated(s.grid, s.piece));
      }
    }
  }

  /** Gravity keeps the piece's columns on the board. */
  lemma GravityKeepsColumns(s: Snapshot, roll: PieceKind, stray: int)
    requires WellFormed(s.grid) && ColumnsInRange(s.piece)
    ensures ColumnsInRange(HandleGravity(s, roll, stray).piece)
  {
    SpawnColumnsInRange(s.next);
    if Fits(s.grid, s.piece.Moved(0, 1)) {
      FitsColumnsInRange(s.grid, s.piece.Moved(0, 1));
    }
  }

  /** Grids on which the same placements fit give the same rotation result. */
  lemma {:induction false} KickFromSameFits(g: Grid, h: Grid, p: Piece, newRot: Rotation, k: nat)
    requires WellFormed(g) && WellFormed(h) && SameFits(g, h) && k <= |KICKS|
    ensures KickFrom(g, p, newRot, k) == KickFrom(h, p, newRot, k)
    decreases |KICKS| - k
  {
    if k < |KICKS| {
      KickFromSameFits(g, h, p, newRot, k + 1);
    }
  }

  /**
   * Ghost dots never change what a key does: erasing the recorded dots and
   * then handling the key gives the same snapshot as handling the key and then
   * erasing. A key adds no unrecorded dot.
   */
  lemma InputIgnoresDots(s: Snapshot, c: char, roll: PieceKind, stray: int)
    requires WellFormed(s.grid)
    ensures Cleaned(HandleInput(s, c, roll, stray)) == HandleInput(Cleaned(s), c, roll, stray)
    ensures DotsRecorded(s) ==> DotsRecorded(HandleInput(s, c, roll, stray))
  {
    var cs := Cleaned(s);
    ErasingDotsKeepsFits(s.grid, s.ghosts);
    LockIgnoresDots(s, roll, stray);
    if c == NO_KEY || c == 'p' || c == 'g' || s.state.paused {
    } else if c == 'a' || c == 'd' {
    } else if c == 's' {
    } else if c == ' ' {
      var landing := Landing(s.grid, s.piece);
      LandingSameFits(s.grid, cs.grid, s.piece);
      LockIgnoresDots(s.(piece := landing), roll, stray);
      assert Cleaned(s.(piece := landing)) == cs.(piece := landing);
    } else if c == 'w' {
      KickFromSameFits(s.grid, cs.grid, s.piece, NextRotation(s.piece.rotation), 0);
    }
  }

  /** Ghost dots never change what gravity does, and gravity adds no unrecorded dot. */
  lemma GravityIgnoresDots(s: Snapshot, roll: PieceKind, stray: int)
    requires WellFormed(s.grid)
    ensures Cleaned(HandleGravity(s, roll, stray)) == HandleGravity(Cleaned(s), roll, stray)
    ensures DotsRecorded(s) ==> DotsRecorded(HandleGravity(s, roll, stray))
  {
    ErasingDotsKeepsFits(s.grid, s.ghosts);
    var t := s.(dropCounter := 0);
    LockIgnoresDots(t, roll, stray);
    assert Cleaned(t) == Cleaned(s).(dropCounter := 0);
  }

  /** Every key keeps the between-frames invariant of a running game. */
  lemma InputKeepsConsistentModuloDots(s: Snapshot, c: char, roll: PieceKind, stray: int)
    requires ConsistentModuloDots(s) && s.state.running
    ensures ConsistentModuloDots(HandleInput(s, c, roll, stray))
  {
    InputIgnoresDots(s, c, roll, stray);
    InputKeepsConsistent(Cleaned(s), c, roll, stray);
  }

  /** Gravity keeps the between-frames invariant. */
  lemma GravityKeepsConsistentModuloDots(s: Snapshot, roll: PieceKind, stray: int)
    requires ConsistentModuloDots(s)
    ensures ConsistentModuloDots(HandleGravity(s, roll, stray))
  {
    GravityIgnoresDots(s, roll, stray);
    GravityKeepsConsistent(Cleaned(s), roll, stray);
  }

  /** The ghost refresh keeps the between-frames invariant: it only moves recorded dots, so the board without them is unchanged. */
  lemma RefreshKeepsConsistentModuloDots(s: Snapshot)
    requires ConsistentModuloDots(s)
    ensures ConsistentModuloDots(RefreshGhost(s))
    ensures Cleaned(RefreshGhost(s)) == Cleaned(s)
  {
    GhostRefreshRoundTrip(s);
    var cleaned := EraseDots(s.grid, s.ghosts);
    ErasingDotsKeepsWallsAndRows(s.grid, s.ghosts);
    var shadow := Landing(cleaned, s.piece);
    if s.state.ghostEnabled && shadow.pos.y != s.piece.pos.y {
      var marked := GhostStamp(cleaned, shadow);
      forall i, j | 0 <= i < BOARD_HEIGHT && 0 <= j < BOARD_WIDTH && marked[i][j] == '.'
        ensures Position(j, i) in GhostTrail(cleaned, shadow)
      {
        GhostTrailRecordsDots(cleaned, shadow, Position(j, i));
      }
    }
  }

  /**
   * A frame of a running game keeps the between-frames invariant while the
   * game runs; when the frame is not paused, the board without its recorded
   * dots is what the key and gravity make of the board without dots.
   */
  lemma FrameKeepsConsistentModuloDots(s: Snapshot, c: char, roll: PieceKind, gravityRoll: PieceKind, stray: int)
    requires ConsistentModuloDots(s) && s.state.running
    ensures Frame(s, c, roll, gravityRoll, stray).state.running
      ==> ConsistentModuloDots(Frame(s, c, roll, gravityRoll, stray))
    ensures Frame(s, c, roll, gravityRoll, stray).state.running && !HandleInput(s, c, roll, stray).state.paused ==>
      Cleaned(Frame(s, c, roll, gravityRoll, stray)) == HandleGravity(HandleInput(Cleaned(s), c, roll, stray), gravityRoll, stray)
  {
    InputKeepsConsistentModuloDots(s, c, roll, stray);
    InputIgnoresDots(s, c, roll, stray);
    var t := HandleInput(s, c, roll, stray);
    if !t.state.paused && t.state.running {
      GravityKeepsConsistentModuloDots(t, gravityRoll, stray);
      GravityIgnoresDots(t, gravityRoll, stray);
      var u := HandleGravity(t, gravityRoll, stray);
      RefreshKeepsConsistentModuloDots(u);
      var v := RefreshGhost(u);
      if v.state.running {
        ErasingDotsKeepsFits(v.grid, v.ghosts);
        DrawEraseOverRecordedDots(v.grid, v.ghosts, v.piece);
        var w := v.(grid := Stamp(Stamp(v.grid, v.piece, true), v.piece, false));
        assert Cleaned(w) == Cleaned(v);
      }
    }
  }

  /** No key ever lowers the level or the score. */
  lemma InputNeverLowersLevelOrScore(s: Snapshot, c: char, roll: PieceKind, stray: int)
    requires WellFormed(s.grid) && NoFullRow(Cleaned(s).grid) && LevelTracksLines(s.state) && s.state.score >= 0
    ensures HandleInput(s, c, roll, stray).state.level >= s.state.level
    ensures HandleInput(s, c, roll, stray).state.score >= s.state.score
  {
    var s' := HandleInput(s, c, roll, stray);
    if !s.state.paused && c == 's' {
      assert s' == SoftDrop(s, roll, stray);
      DropsNeverLowerLevelOrScore(s, roll, stray);
    } else if !s.state.paused && c == ' ' {
      assert s' == HardDrop(s, roll, stray);
      DropsNeverLowerLevelOrScore(s, roll, stray);
    } else {
      assert s'.state.level == s.state.level && s'.state.score == s.state.score;
    }
  }

  /** Neither drop lowers the level or the score. */
  lemma DropsNeverLowerLevelOrScore(s: Snapshot, roll: PieceKind, stray: int)
    requires WellFormed(s.grid) && NoFullRow(Cleaned(s).grid) && LevelTracksLines(s.state) && s.state.score >= 0
    ensures SoftDrop(s, roll, stray).state.level >= s.state.level && SoftDrop(s, roll, stray).state.score >= s.state.score
    ensures HardDrop(s, roll, stray).state.level >= s.state.level && HardDrop(s, roll, stray).state.score >= s.state.score
  {
    LockClearsAtMostFourRows(s, roll, stray);
    var landed := s.(piece := Landing(s.grid, s.piece));
    LockClearsAtMostFourRows(landed, roll, stray);
  }

  /** Gravity never lowers the level or the score. */
  lemma GravityNeverLowersLevelOrScore(s: Snapshot, roll: PieceKind, stray: int)
    requires WellFormed(s.grid) && NoFullRow(Cleaned(s).grid) && LevelTracksLines(s.state) && s.state.score >= 0
    ensures HandleGravity(s, roll, stray).state.level >= s.state.level
    ensures HandleGravity(s, roll, stray).state.score >= s.state.score
  {
    LockClearsAtMostFourRows(s.(dropCounter := 0), roll, stray);
  }

  /** Gravity only counts for four calls, then acts on the fifth: the piece and board stay put until then. */
  lemma {:induction false} GravityWaitsForFifthTick(s: Snapshot, roll: PieceKind, stray: int, n: nat)
    requires Consistent(s) && s.state.running && !s.state.paused
    requires s.dropCounter + n < DROP_INTERVAL_TICKS
    ensures GravityTicks(s, roll, stray, n) == s.(dropCounter := s.dropCounter + n)
    decreases n
  {
    if n > 0 {
      var t := s.(dropCounter := s.dropCounter + 1);
      assert Consistent(t);
      GravityWaitsForFifthTick(t, roll, stray, n - 1);
    }
  }

  /** The call after four idle ones restarts the sub-tick count and moves, locks or ends the game. */
  lemma GravityActsOnFifthTick(s: Snapshot, roll: PieceKind, stray: int)
    requires Consistent(s) && s.state.running && !s.state.paused
    requires s.dropCounter == DROP_INTERVAL_TICKS - 1
    ensures HandleGravity(s, roll, stray).dropCounter == 0
      || HandleGravity(s, roll, stray).piece == SpawnPiece(s.next)
    ensures Fits(s.grid, s.piece.Moved(0, 1)) ==> HandleGravity(s, roll, stray).piece == s.piece.Moved(0, 1)
    ensures !Fits(s.grid, s.piece.Moved(0, 1)) && s.piece.pos.y < 0 ==> !HandleGravity(s, roll, stray).state.running
  {
  }

  /** Stopped or paused, gravity changes nothing at all. */
  lemma GravityIdleWhenStoppedOrPaused(s: Snapshot, roll: PieceKind, stray: int)
    requires WellFormed(s.grid)
    requires !s.state.running || s.state.paused
    ensures HandleGravity(s, roll, stray) == s
  {
  }

  /** A blocked drop above the board ends the game without stamping anything. */
  lemma BlockedAboveBoardStampsNothing(s: Snapshot, roll: PieceKind, stray: int)
    requires WellFormed(s.grid)
    requires !Fits(s.grid, s.piece.Moved(0, 1)) && s.piece.pos.y < 0
    ensures SoftDrop(s, roll, stray).grid == s.grid && !SoftDrop(s, roll, stray).state.running
    ensures Landing(s.grid, s.piece) == s.piece
    ensures HardDrop(s, roll, stray).grid == s.grid && !HardDrop(s, roll, stray).state.running
  {
  }

  /** While paused, every key other than the two toggles and 'q' is ignored, and 'q' quits. */
  lemma PausedIgnoresPlay(s: Snapshot, c: char, roll: PieceKind, stray: int)
    requires WellFormed(s.grid) && s.state.paused
    requires c != 'p' && c != 'g'
    ensures c != 'q' ==> HandleInput(s, c, roll, stray) == s
    ensures c == 'q' ==> !HandleInput(s, c, roll, stray).state.running && HandleInput(s, c, roll, stray).state.quitByUser
  {
  }

  /** A restart always begins a running, unpaused game with fresh statistics on a fresh board. */
  lemma ResetStartsFreshGame(s: Snapshot, firstRoll: PieceKind, roll: PieceKind)
    ensures Reset(s, firstRoll, roll).state.running && !Reset(s, firstRoll, roll).state.paused
    ensures !Reset(s, firstRoll, roll).state.quitByUser
    ensures Reset(s, firstRoll, roll).state.score == 0 && Reset(s, firstRoll, roll).state.level == 1
    ensures Reset(s, firstRoll, roll).state.linesCleared == 0 && Reset(s, firstRoll, roll).dropCounter == 0
    ensures Reset(s, firstRoll, roll).grid == InitialGrid()
    ensures Reset(s, firstRoll, roll).piece == SpawnPiece(firstRoll) && Reset(s, firstRoll, roll).next == roll
    ensures Consistent(Reset(s, firstRoll, roll)) && ConsistentModuloDots(Reset(s, firstRoll, roll))
  {
    FreshBoardAcceptsEverySpawn(firstRoll);
    InitialGridHasNoFullRow();
    SpawnColumnsInRange(firstRoll);
    ErasingUnrecordedChangesNothing(InitialGrid(), s.ghosts);
  }

  /** A round started after a restart runs at the level-1 gravity period on a fresh, consistent game. */
  lemma RoundAfterResetRunsAtBaseSpeed(s: Snapshot, r1: PieceKind, r2: PieceKind, r3: PieceKind, r4: PieceKind)
    ensures StartRound(Reset(s, r1, r2), r3, r4).dropSpeedUs == BASE_DROP_SPEED_US
    ensures StartRound(Reset(s, r1, r2), r3, r4).state.running
    ensures StartRound(Reset(s, r1, r2), r3, r4).piece == SpawnPiece(r3)
    ensures Consistent(StartRound(Reset(s, r1, r2), r3, r4))
    ensures ConsistentModuloDots(StartRound(Reset(s, r1, r2), r3, r4))
  {
    ResetStartsFreshGame(s, r1, r2);
    FreshBoardAcceptsEverySpawn(r3);
    InitialGridHasNoFullRow();
    SpawnColumnsInRange(r3);
    ErasingUnrecordedChangesNothing(InitialGrid(), s.ghosts);
  }

  /** The ghost refresh puts dots only on blank cells below or at the piece's row and records exactly those cells. */
  lemma GhostRefreshRoundTrip(s: Snapshot)
    requires WellFormed(s.grid) && ColumnsInRange(s.piece)
    ensures EraseDots(RefreshGhost(s).grid, RefreshGhost(s).ghosts) == EraseDots(s.grid, s.ghosts)
    ensures forall p: Piece :: Fits(RefreshGhost(s).grid, p) == Fits(EraseDots(s.grid, s.ghosts), p)
  {
    var cleaned := EraseDots(s.grid, s.ghosts);
    var shadow := Landing(cleaned, s.piece);
    if s.state.ghostEnabled && shadow.pos.y != s.piece.pos.y {
      GhostRoundTrip(cleaned, shadow);
      forall p: Piece ensures Fits(RefreshGhost(s).grid, p) == Fits(cleaned, p) {
        GhostDotsNeverBlock(cleaned, shadow, p);
      }
    } else {
      var h := EraseDots(cleaned, []);
      forall i | 0 <= i < BOARD_HEIGHT ensures h[i] == cleaned[i] {
        assert forall j | 0 <= j < BOARD_WIDTH :: h[i][j] == cleaned[i][j];
      }
    }
  }
}
