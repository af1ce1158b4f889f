/**
 * The single-file game's state machine as functions on a snapshot of its
 * controller: spawning a random kind, locking without scoring, the drops,
 * rotation with the shorter kick table, key dispatch, gravity sub-ticks,
 * the start of a game and one frame of the main loop. The random
 * generator's next draw is an argument `roll`.
 */
module ClassicRules {
  import opened Geometry
  import opened Pieces
  import opened Playfield
  import opened Collision
  import opened Input

  /** The single-file version's flags. */
  datatype ClassicState = ClassicState(running: bool, paused: bool)

  const INITIAL_CLASSIC_STATE: ClassicState := ClassicState(true, false)

  /** Gravity period in microseconds, fixed in this version. */
  const CLASSIC_DROP_SPEED_US: int := 500000
  /** Logic steps per gravity row. */
  const CLASSIC_DROP_INTERVAL_TICKS: int := 5

  /** Horizontal offsets tried, in order, when a rotation does not fit where it is. */
  const CLASSIC_KICKS: seq<int> := [0, -1, 1, -2, 2]

  /** Every field of the single-file controller together with the grid. */
  datatype Classic = Classic(grid: Grid, state: ClassicState, piece: Piece, dropSpeedUs: int, dropCounter: int)

  /** A random kind enters at the spawn position; the game ends when it does not fit. */
  function ClassicSpawn(s: Classic, roll: PieceKind): (s': Classic)
    requires WellFormed(s.grid)
    ensures s'.piece == SpawnPiece(roll) && s'.grid == s.grid && s'.dropCounter == s.dropCounter
    ensures s'.state.running <==> s.state.running && ClassicSpawnFits(s.grid, SpawnPiece(roll))
    ensures s'.state.paused == s.state.paused
  {
    var spawn := SpawnPiece(roll);
    if ClassicSpawnFits(s.grid, spawn) then s.(piece := spawn)
    else s.(piece := spawn, state := s.state.(running := false))
  }

  /** Writes the piece into the grid, removes the full rows and spawns the next piece; nothing is scored. */
  function ClassicLock(s: Classic, roll: PieceKind): (s': Classic)
    requires WellFormed(s.grid)
  {
    ClassicSpawn(s.(grid := ClearFull(Stamp(s.grid, s.piece, true))), roll)
  }

  /** One row down if that is a legal move; otherwise lock and restart the sub-tick count. */
  function ClassicSoftDrop(s: Classic, roll: PieceKind): (s': Classic)
    requires WellFormed(s.grid)
  {
    var down := s.piece.Moved(0, 1);
    if ClassicMoveFits(s.grid, down) then s.(piece := down)
    else ClassicLock(s, roll).(dropCounter := 0)
  }

  /** Moves to the landing row, locks there and restarts the sub-tick count. */
  function ClassicHardDrop(s: Classic, roll: PieceKind): (s': Classic)
    requires WellFormed(s.grid)
  {
    ClassicLock(s.(piece := ClassicLanding(s.grid, s.piece)), roll).(dropCounter := 0)
  }

  /** The rotated piece at the first kick, from index k on, whose placement is a legal move; the piece itself when none is. */
  function ClassicKickFrom(g: Grid, p: Piece, newRot: Rotation, k: nat): (q: Piece)
    requires WellFormed(g) && k <= |CLASSIC_KICKS|
    ensures q == p
      || (ClassicMoveFits(g, q) && q == p.Placed(q.pos.x - p.pos.x, 0, newRot) && q.pos.x - p.pos.x in CLASSIC_KICKS[k..])
    decreases |CLASSIC_KICKS| - k
  {
    if k == |CLASSIC_KICKS| then p
    else if ClassicMoveFits(g, p.Placed(CLASSIC_KICKS[k], 0, newRot)) then p.Placed(CLASSIC_KICKS[k], 0, newRot)
    else ClassicKickFrom(g, p, newRot, k + 1)
  }

  /** A clockwise quarter-turn with wall kicks. */
  function ClassicRotated(g: Grid, p: Piece): (q: Piece)
    requires WellFormed(g)
  {
    ClassicKickFrom(g, p, NextRotation(p.rotation), 0)
  }

  /** The piece shifted sideways by dx if that is a legal move, else unchanged. */
  function ClassicShifted(g: Grid, p: Piece, dx: int): (q: Piece)
    requires WellFormed(g)
  {
    if ClassicMoveFits(g, p.Moved(dx, 0)) then p.Moved(dx, 0) else p
  }

  function ClassicQuit(s: Classic): Classic
  {
    s.(state := s.state.(running := false))
  }

  /**
   * One key: 'p' toggles the pause; while paused only 'q' acts, and it ends
   * the game; otherwise 'a'/'d' move, 'x' soft-drops, space hard-drops, 'w'
   * rotates and 'q' ends the game.
   */
  function ClassicInput(s: Classic, c: char, roll: PieceKind): (s': Classic)
    requires WellFormed(s.grid)
  {
    if c == NO_KEY then s
    else if c == 'p' then s.(state := s.state.(paused := !s.state.paused))
    else if s.state.paused then (if c == 'q' then ClassicQuit(s) else s)
    else if c == 'a' then s.(piece := ClassicShifted(s.grid, s.piece, -1))
    else if c == 'd' then s.(piece := ClassicShifted(s.grid, s.piece, 1))
    else if c == 'x' then ClassicSoftDrop(s, roll)
    else if c == ' ' then ClassicHardDrop(s, roll)
    else if c == 'w' then s.(piece := ClassicRotated(s.grid, s.piece))
    else if c == 'q' then ClassicQuit(s)
    else s
  }

  /**
   * One logic step of gravity: nothing when stopped or paused; otherwise the
   * sub-tick count advances, and on reaching the interval it restarts and
   * the piece moves down or locks.
   */
  function ClassicGravity(s: Classic, roll: PieceKind): (s': Classic)
    requires WellFormed(s.grid)
  {
    if !s.state.running || s.state.paused then s
    else if s.dropCounter + 1 < CLASSIC_DROP_INTERVAL_TICKS then s.(dropCounter := s.dropCounter + 1)
    else
      var t := s.(dropCounter := 0);
      var down := t.piece.Moved(0, 1);
      if ClassicMoveFits(t.grid, down) then t.(piece := down)
      else ClassicLock(t, roll)
  }

  /** The start of a game: a fresh board, its interior blanked once more, then a spawn. */
  function ClassicStart(s: Classic, roll: PieceKind): (s': Classic)
  {
    ClassicSpawn(s.(grid := EmptyInterior(InitialGrid())), roll)
  }

  /**
   * One pass of the main loop: a key; nothing more while paused; else
   * gravity, then the piece is drawn into the grid for display and erased
   * again.
   */
  function ClassicFrame(s: Classic, c: char, roll: PieceKind, gravityRoll: PieceKind): (s': Classic)
    requires WellFormed(s.grid)
  {
    var t := ClassicInput(s, c, roll);
    if t.state.paused then t
    else
      var u := ClassicGravity(t, gravityRoll);
      u.(grid := Stamp(Stamp(u.grid, u.piece, true), u.piece, false))
  }

  /**
   * The invariant of a game in progress: the walls and ceiling stand, the
   * sub-tick count is below the interval, and a running game's piece is in a
   * legal spawn placement (inside the playable area, on blanks).
   */
  predicate ClassicConsistent(s: Classic)
  {
    WellFormed(s.grid) && Walled(s.grid)
    && 0 <= s.dropCounter < CLASSIC_DROP_INTERVAL_TICKS
    && (s.state.running ==> ClassicSpawnFits(s.grid, s.piece))
  }

  /** Applies gravity n times with the same draw. */
  function ClassicGravityTicks(s: Classic, roll: PieceKind, n: nat): Classic
    requires WellFormed(s.grid)
    decreases n
  {
    if n == 0 then s
    else
      var t := ClassicGravity(s, roll);
      assert WellFormed(t.grid);
      ClassicGravityTicks(t, roll, n - 1)
  }

  // ----- lemmas -----

  /** Locking reports game over exactly when the next piece does not fit on the cleared board. */
  lemma ClassicLockEndsGameOnlyOnBlockedSpawn(s: Classic, roll: PieceKind)
    requires WellFormed(s.grid) && s.state.running
    ensures ClassicLock(s, roll).state.running
      <==> ClassicSpawnFits(ClearFull(Stamp(s.grid, s.piece, true)), SpawnPiece(roll))
    ensures NoFullRow(ClassicLock(s, roll).grid)
    ensures ClassicLock(s, roll).piece == Piece(roll, 0, Position(5, -1))
  {
    ClearFullLeavesNoFullRow(Stamp(s.grid, s.piece, true));
    SpawnColumnsInRange(roll);
  }

  /** Locking a piece in a legal placement keeps the walls and the invariant. */
  lemma ClassicLockConsistent(s: Classic, roll: PieceKind)
    requires ClassicConsistent(s) && ClassicSpawnFits(s.grid, s.piece)
    ensures ClassicConsistent(ClassicLock(s, roll))
  {
    var stamped := Stamp(s.grid, s.piece, true);
    ClassicStampKeepsWalls(s.grid, s.piece, true);
    ClearFullKeepsWalls(stamped);
  }

  /** A hard drop ends on the lowest reachable row in one lock, and it never ends above where it started. */
  lemma ClassicHardDropLocksAtLanding(s: Classic, roll: PieceKind)
    requires ClassicConsistent(s) && s.state.running
    ensures ClassicSpawnFits(s.grid, ClassicLanding(s.grid, s.piece))
    ensures ClassicLanding(s.grid, s.piece).pos.y >= s.piece.pos.y
    ensures !ClassicMoveFits(s.grid, ClassicLanding(s.grid, s.piece).Moved(0, 1))
    ensures ClassicHardDrop(s, roll).grid == ClearFull(Stamp(s.grid, ClassicLanding(s.grid, s.piece), true))
    ensures ClassicHardDrop(s, roll).dropCounter == 0
  {
    var q := ClassicLanding(s.grid, s.piece);
    if q.pos.y > s.piece.pos.y {
      ClassicMoveFitsImpliesSpawnFits(s.grid, s.piece.AtRow(q.pos.y));
    }
  }

  /** Rotation commits the first kick, in table order, whose rotated placement is a legal move. */
  lemma ClassicRotationTakesFirstFittingKick(g: Grid, p: Piece, k: nat)
    requires WellFormed(g) && k < |CLASSIC_KICKS|
    requires ClassicMoveFits(g, p.Placed(CLASSIC_KICKS[k], 0, NextRotation(p.rotation)))
    requires forall m | 0 <= m < k :: !ClassicMoveFits(g, p.Placed(CLASSIC_KICKS[m], 0, NextRotation(p.rotation)))
    ensures ClassicRotated(g, p) == p.Placed(CLASSIC_KICKS[k], 0, NextRotation(p.rotation))
  {
    var newRot := NextRotation(p.rotation);
    var m := 0;
    while m < k
      invariant 0 <= m <= k
      invariant ClassicKickFrom(g, p, newRot, m) == ClassicKickFrom(g, p, newRot, 0)
    {
      assert !ClassicMoveFits(g, p.Placed(CLASSIC_KICKS[m], 0, newRot));
      m := m + 1;
    }
  }

  /** Rotation leaves the piece unchanged exactly when no kick gives a legal move. */
  lemma ClassicRotationFailsOnlyWhenNoKickFits(g: Grid, p: Piece)
    requires WellFormed(g)
    ensures ClassicRotated(g, p) == p
      <==> forall m | 0 <= m < |CLASSIC_KICKS| :: !ClassicMoveFits(g, p.Placed(CLASSIC_KICKS[m], 0, NextRotation(p.rotation)))
    ensures ClassicRotated(g, p) != p ==> ClassicMoveFits(g, ClassicRotated(g, p))
  {
    var newRot := NextRotation(p.rotation);
    if exists m | 0 <= m < |CLASSIC_KICKS| :: ClassicMoveFits(g, p.Placed(CLASSIC_KICKS[m], 0, newRot)) {
      var m :| 0 <= m < |CLASSIC_KICKS| && ClassicMoveFits(g, p.Placed(CLASSIC_KICKS[m], 0, newRot));
      var f := 0;
      while !ClassicMoveFits(g, p.Placed(CLASSIC_KICKS[f], 0, newRot))
        invariant 0 <= f <= m
        invariant forall e | 0 <= e < f :: !ClassicMoveFits(g, p.Placed(CLASSIC_KICKS[e], 0, newRot))
        decreases m - f
      {
        f := f + 1;
      }
      ClassicRotationTakesFirstFittingKick(g, p, f);
    } else {
      var k := |CLASSIC_KICKS|;
      while k > 0
        invariant 0 <= k <= |CLASSIC_KICKS|
        invariant ClassicKickFrom(g, p, newRot, k) == p
      {
        k := k - 1;
      }
    }
  }

  /** The drops keep a running consistent game consistent. */
  lemma ClassicDropsKeepConsistent(s: Classic, roll: PieceKind)
    requires ClassicConsistent(s) && s.state.running
    ensures ClassicConsistent(ClassicSoftDrop(s, roll))
    ensures ClassicConsistent(ClassicHardDrop(s, roll))
  {
    var down := s.piece.Moved(0, 1);
    if ClassicMoveFits(s.grid, down) {
      ClassicMoveFitsImpliesSpawnFits(s.grid, down);
    } else {
      ClassicLockConsistent(s, roll);
    }
    ClassicHardDropLocksAtLanding(s, roll);
    ClassicLockConsistent(s.(piece := ClassicLanding(s.grid, s.piece)), roll);
  }

  /** Every key keeps a running consistent game consistent: the walls stand and a running game's piece is legal. */
  lemma ClassicInputKeepsConsistent(s: Classic, c: char, roll: PieceKind)
    requires ClassicConsistent(s) && s.state.running
    ensures ClassicConsistent(ClassicInput(s, c, roll))
  {
    if c == NO_KEY || c == 'p' || s.state.paused || c == 'q' {
    } else if c == 'a' || c == 'd' {
      var dx := if c == 'a' then -1 else 1;
      if ClassicMoveFits(s.grid, s.piece.Moved(dx, 0)) {
        ClassicMoveFitsImpliesSpawnFits(s.grid, s.piece.Moved(dx, 0));
      }
    } else if c == 'x' || c == ' ' {
      ClassicDropsKeepConsistent(s, roll);
    } else if c == 'w' {
      ClassicRotationFailsOnlyWhenNoKickFits(s.grid, s.piece);
      if ClassicRotated(s.grid, s.piece) != s.piece {
        ClassicMoveFitsImpliesSpawnFits(s.grid, ClassicRotated(s.grid, s.piece));
      }
    }
  }

  /** Gravity keeps a consistent game consistent. */
  lemma ClassicGravityKeepsConsistent(s: Classic, roll: PieceKind)
    requires ClassicConsistent(s)
    ensures ClassicConsistent(ClassicGravity(s, roll))
  {
    if s.state.running && !s.state.paused && s.dropCounter + 1 >= CLASSIC_DROP_INTERVAL_TICKS {
      var t := s.(dropCounter := 0);
      var down := t.piece.Moved(0, 1);
      if ClassicMoveFits(t.grid, down) {
        ClassicMoveFitsImpliesSpawnFits(t.grid, down);
      } else {
        ClassicLockConsistent(t, roll);
      }
    }
  }

  /** Gravity only counts for four calls; the board and the piece stay put until the fifth. */
  lemma {:induction false} ClassicGravityWaitsForFifthTick(s: Classic, roll: PieceKind, n: nat)
    requires WellFormed(s.grid) && s.state.running && !s.state.paused
    requires s.dropCounter >= 0 && s.dropCounter + n < CLASSIC_DROP_INTERVAL_TICKS
    ensures ClassicGravityTicks(s, roll, n) == s.(dropCounter := s.dropCounter + n)
    decreases n
  {
    if n > 0 {
      ClassicGravityWaitsForFifthTick(s.(dropCounter := s.dropCounter + 1), roll, n - 1);
    }
  }

  /** The fifth call restarts the count and moves the piece down, or locks it where it rests. */
  lemma ClassicGravityActsOnFifthTick(s: Classic, roll: PieceKind)
    requires WellFormed(s.grid) && s.state.running && !s.state.paused
    requires s.dropCounter == CLASSIC_DROP_INTERVAL_TICKS - 1
    ensures ClassicMoveFits(s.grid, s.piece.Moved(0, 1))
      ==> ClassicGravity(s, roll) == s.(piece := s.piece.Moved(0, 1), dropCounter := 0)
    ensures !ClassicMoveFits(s.grid, s.piece.Moved(0, 1)) ==>
      (ClassicGravity(s, roll).grid == ClearFull(Stamp(s.grid, s.piece, true))
       && ClassicGravity(s, roll).piece == SpawnPiece(roll) && ClassicGravity(s, roll).dropCounter == 0)
  {
  }

  /** While paused only 'p' and 'q' act: 'p' resumes, 'q' ends the game, every other key is ignored. */
  lemma ClassicPausedIgnoresPlay(s: Classic, c: char, roll: PieceKind)
    requires WellFormed(s.grid) && s.state.paused
    ensures c != 'p' && c != 'q' ==> ClassicInput(s, c, roll) == s
    ensures c == 'q' ==> ClassicInput(s, c, roll) == s.(state := ClassicState(false, true))
    ensures c == 'p' ==> ClassicInput(s, c, roll) == s.(state := s.state.(paused := false))
  {
  }

  /** A new game is running on a walled, fresh board with a consistent state. */
  lemma ClassicStartIsConsistent(s: Classic, roll: PieceKind)
    requires s.state.running && 0 <= s.dropCounter < CLASSIC_DROP_INTERVAL_TICKS
    ensures ClassicStart(s, roll).state.running
    ensures ClassicStart(s, roll).grid == InitialGrid()
    ensures ClassicConsistent(ClassicStart(s, roll))
  {
    EmptyInteriorOfInitialGrid();
    FreshBoardAcceptsEverySpawn(roll);
    InitialGridHasNoFullRow();
  }

  /** A frame of a running consistent game gives a consistent game; while it keeps running, drawing and erasing leaves the grid as gravity left it. */
  lemma ClassicFrameKeepsConsistent(s: Classic, c: char, roll: PieceKind, gravityRoll: PieceKind)
    requires ClassicConsistent(s) && s.state.running
    ensures ClassicFrame(s, c, roll, gravityRoll).state.running
      ==> ClassicConsistent(ClassicFrame(s, c, roll, gravityRoll))
    ensures ClassicFrame(s, c, roll, gravityRoll).state.running && !ClassicInput(s, c, roll).state.paused
      ==> ClassicFrame(s, c, roll, gravityRoll).grid == ClassicGravity(ClassicInput(s, c, roll), gravityRoll).grid
  {
    ClassicInputKeepsConsistent(s, c, roll);
    var t := ClassicInput(s, c, roll);
    if !t.state.paused {
      ClassicGravityKeepsConsistent(t, gravityRoll);
      var u := ClassicGravity(t, gravityRoll);
      if u.state.running {
        ClassicDrawEraseRestores(u.grid, u.piece);
      }
    }
  }
}
