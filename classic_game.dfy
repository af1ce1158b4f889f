/**
 * The single-file game's controller: the board object, the flags, the
 * current piece, the gravity period and the sub-tick count, updated in
 * place. Every state-changing method is specified by the ClassicRules
 * function it computes.
 */
module Classic {
  import opened Geometry
  import opened Pieces
  import opened Playfield
  import opened Collision
  import opened Input
  import opened Boards
  import opened ClassicRules

  class ClassicGame {
    const board: Board
    var state: ClassicState
    var currentPiece: Piece
    var dropSpeedUs: int
    var dropCounter: int

    predicate Valid()
    {
      board.Valid()
    }

    /** The whole controller state as a value. */
    ghost function Snap(): Classic
      requires Valid()
      reads this, board.grid
    {
      Classic(board.Cells(), state, currentPiece, dropSpeedUs, dropCounter)
    }

    /** A new controller: a zeroed grid, a running unpaused game, the default piece, the base gravity period. */
    constructor()
      ensures Valid() && fresh(board) && fresh(board.grid)
      ensures state == INITIAL_CLASSIC_STATE && currentPiece == DEFAULT_PIECE
      ensures dropSpeedUs == CLASSIC_DROP_SPEED_US && dropCounter == 0
    {
      board := new Board();
      state := INITIAL_CLASSIC_STATE;
      currentPiece := DEFAULT_PIECE;
      dropSpeedUs := CLASSIC_DROP_SPEED_US;
      dropCounter := 0;
    }

    /** Whether `piece` may appear where it is: every filled cell on row 0 or below is in the playable area and blank. */
    method CanSpawn(piece: Piece) returns (ok: bool)
      requires Valid()
      ensures ok == ClassicSpawnFits(board.Cells(), piece)
    {
      ghost var g := board.Cells();
      for row := 0 to BLOCK_SIZE
        invariant forall r: Coord, c: Coord | r < row :: ClassicSpawnCellFits(g, piece, r, c)
      {
        for col := 0 to BLOCK_SIZE
          invariant forall r: Coord, c: Coord | r < row || (r == row && c < col) :: ClassicSpawnCellFits(g, piece, r, c)
        {
          var cell := GetCell(piece.kind, piece.rotation, row, col);
          if cell == ' ' {
            continue;
          }
          var xt, yt := piece.pos.x + col, piece.pos.y + row;
          if yt >= 0 && !InsidePlayfieldClassic(xt, yt) {
            assert !ClassicSpawnCellFits(g, piece, row, col);
            return false;
          }
          if yt >= 0 && board.grid[yt, xt] != ' ' {
            assert !ClassicSpawnCellFits(g, piece, row, col);
            return false;
          }
        }
      }
      return true;
    }

    /**
     * Whether the current piece, shifted by (dx, dy) and in rotation state
     * newRotation, is a legal move: inside the side walls, above the bottom
     * wall, and on blanks where on the board.
     */
    method CanMove(dx: int, dy: int, newRotation: Rotation) returns (ok: bool)
      requires Valid()
      ensures ok == ClassicMoveFits(board.Cells(), currentPiece.Placed(dx, dy, newRotation))
    {
      ghost var g := board.Cells();
      ghost var moved := currentPiece.Placed(dx, dy, newRotation);
      for row := 0 to BLOCK_SIZE
        invariant forall r: Coord, c: Coord | r < row :: ClassicMoveCellFits(g, moved, r, c)
      {
        for col := 0 to BLOCK_SIZE
          invariant forall r: Coord, c: Coord | r < row || (r == row && c < col) :: ClassicMoveCellFits(g, moved, r, c)
        {
          var cell := GetCell(currentPiece.kind, newRotation, row, col);
          if cell == ' ' {
            continue;
          }
          var xt, yt := currentPiece.pos.x + col + dx, currentPiece.pos.y + row + dy;
          if xt < 1 || xt >= BOARD_WIDTH - 1 {
            assert !ClassicMoveCellFits(g, moved, row, col);
            return false;
          }
          if yt >= BOARD_HEIGHT - 1 {
            assert !ClassicMoveCellFits(g, moved, row, col);
            return false;
          }
          if yt >= 0 && board.grid[yt, xt] != ' ' {
            assert !ClassicMoveCellFits(g, moved, row, col);
            return false;
          }
        }
      }
      return true;
    }

    /** A random kind (the draw `roll`) enters at the spawn point; the game ends if it cannot appear there. */
    method SpawnNewPiece(roll: PieceKind)
      requires Valid()
      modifies this
      ensures Snap() == ClassicSpawn(old(Snap()), roll)
    {
      var spawnX := BOARD_WIDTH / 2 - BLOCK_SIZE / 2;
      currentPiece := Piece(roll, 0, Position(spawnX, -1));
      var ok := CanSpawn(currentPiece);
      if !ok {
        state := state.(running := false);
      }
    }

    /** Stamps the current piece, clears full rows and spawns; reports whether the game still runs. */
    method LockPieceAndCheck(roll: PieceKind) returns (running: bool)
      requires Valid()
      modifies this, board.grid
      ensures Snap() == ClassicLock(old(Snap()), roll)
      ensures running == state.running
    {
      board.PlacePiece(currentPiece, true);
      var _ := board.ClearLines();
      SpawnNewPiece(roll);
      if !state.running {
        return false;
      }
      return true;
    }

    /** One row down if legal; otherwise lock and restart the sub-tick count. */
    method SoftDrop(roll: PieceKind)
      requires Valid()
      modifies this, board.grid
      ensures Snap() == ClassicSoftDrop(old(Snap()), roll)
    {
      var ok := CanMove(0, 1, currentPiece.rotation);
      if ok {
        currentPiece := currentPiece.Moved(0, 1);
      } else {
        var running := LockPieceAndCheck(roll);
        state := state.(running := running);
        dropCounter := 0;
      }
    }

    /** Moves down while legal, then locks and restarts the sub-tick count. */
    method HardDrop(roll: PieceKind)
      requires Valid()
      modifies this, board.grid
      ensures Snap() == ClassicHardDrop(old(Snap()), roll)
    {
      ghost var g := board.Cells();
      var canDown := CanMove(0, 1, currentPiece.rotation);
      while canDown
        modifies this
        invariant currentPiece == old(currentPiece).AtRow(currentPiece.pos.y)
        invariant ClassicLanding(g, currentPiece) == ClassicLanding(g, old(currentPiece))
        invariant canDown == ClassicMoveFits(g, currentPiece.Moved(0, 1))
        invariant Snap() == old(Snap()).(piece := currentPiece)
        decreases ClassicLanding(g, old(currentPiece)).pos.y - currentPiece.pos.y
      {
        currentPiece := currentPiece.Moved(0, 1);
        canDown := CanMove(0, 1, currentPiece.rotation);
      }
      var running := LockPieceAndCheck(roll);
      state := state.(running := running);
      dropCounter := 0;
    }

    /** A clockwise quarter-turn trying the kicks in table order; the first legal one is committed. */
    method Rotate()
      requires Valid()
      modifies this
      ensures Snap() == old(Snap()).(piece := ClassicRotated(board.Cells(), old(currentPiece)))
    {
      ghost var g := board.Cells();
      ghost var p0 := currentPiece;
      var newRot := NextRotation(currentPiece.rotation);
      var kicks := CLASSIC_KICKS;
      for k := 0 to |kicks|
        invariant unchanged(this)
        invariant ClassicKickFrom(g, p0, newRot, k) == ClassicRotated(g, p0)
      {
        var dx := kicks[k];
        var ok := CanMove(dx, 0, newRot);
        if ok {
          currentPiece := currentPiece.Placed(dx, 0, newRot);
          assert currentPiece == ClassicRotated(g, p0);
          break;
        }
      }
    }

    /** Acts on one key: the pause toggle, quitting while paused, and otherwise moves, drops, rotation and quitting. */
    method HandleInput(c: char, roll: PieceKind)
      requires Valid()
      modifies this, board.grid
      ensures Snap() == ClassicInput(old(Snap()), c, roll)
    {
      if c == NO_KEY {
        return;
      }
      if c == 'p' {
        state := state.(paused := !state.paused);
        return;
      }
      if state.paused {
        if c == 'q' {
          state := state.(running := false);
        }
        return;
      }
      match c {
        case 'a' =>
          var ok := CanMove(-1, 0, currentPiece.rotation);
          if ok {
            currentPiece := currentPiece.Moved(-1, 0);
          }
        case 'd' =>
          var ok := CanMove(1, 0, currentPiece.rotation);
          if ok {
            currentPiece := currentPiece.Moved(1, 0);
          }
        case 'x' =>
          SoftDrop(roll);
        case ' ' =>
          HardDrop(roll);
        case 'w' =>
          Rotate();
        case 'q' =>
          state := state.(running := false);
        case _ =>
      }
    }

    /** One logic step: count a sub-tick and, every fifth time, move down or lock. */
    method HandleGravity(roll: PieceKind)
      requires Valid()
      modifies this, board.grid
      ensures Snap() == ClassicGravity(old(Snap()), roll)
    {
      if !state.running || state.paused {
        return;
      }
      dropCounter := dropCounter + 1;
      if dropCounter < CLASSIC_DROP_INTERVAL_TICKS {
        return;
      }
      dropCounter := 0;
      var ok := CanMove(0, 1, currentPiece.rotation);
      if ok {
        currentPiece := currentPiece.Moved(0, 1);
      } else {
        var running := LockPieceAndCheck(roll);
        state := state.(running := running);
      }
    }

    /** The start of a game: walls and ceiling, the interior blanked, then the first piece. */
    method Start(roll: PieceKind)
      requires Valid()
      modifies this, board.grid
      ensures Snap() == ClassicStart(old(Snap()), roll)
    {
      board.Init();
      board.BlankInterior();
      SpawnNewPiece(roll);
    }

    /** One pass of the main loop: a key, and unless paused, gravity and the piece drawn in and erased again. */
    method Frame(c: char, roll: PieceKind, gravityRoll: PieceKind)
      requires Valid()
      modifies this, board.grid
      ensures Snap() == ClassicFrame(old(Snap()), c, roll, gravityRoll)
    {
      HandleInput(c, roll);
      if state.paused {
        return;
      }
      HandleGravity(gravityRoll);
      board.PlacePiece(currentPiece, true);
      board.PlacePiece(currentPiece, false);
    }
  }
}
