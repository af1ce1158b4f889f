/**
 * The modular game's controller: the board object, the statistics record,
 * the current piece, the pending kind, the gravity period and sub-tick count,
 * and the recorded ghost cells, updated in place. Every state-changing
 * method is specified by the TetrisRules function it computes.
 */
module Tetris {
  import opened Geometry
  import opened Pieces
  import opened Playfield
  import opened Collision
  import opened GameStates
  import opened Scoring
  import opened HighScores
  import opened Input
  import opened Boards
  import opened TetrisRules

  class TetrisGame {
    const board: Board
    var state: GameState
    var currentPiece: Piece
    var nextPieceType: PieceKind
    var dropSpeedUs: int
    var dropCounter: int
    var lastGhostPositions: seq<Position>

    predicate Valid()
    {
      board.Valid()
    }

    /** The whole controller state as a value. */
    ghost function Snap(): Snapshot
      requires Valid()
      reads this, board.grid
    {
      Snapshot(board.Cells(), state, currentPiece, nextPieceType, dropSpeedUs, dropCounter, lastGhostPositions)
    }

    /**
     * A new controller: default fields, and the high-score list loaded from
     * `onFile`, the integers read from the score file (empty when it is missing).
     */
    constructor(onFile: seq<int>)
      ensures Valid() && fresh(board) && fresh(board.grid)
      ensures state == INITIAL_STATE.(highScores := SortDescending(onFile))
      ensures currentPiece == DEFAULT_PIECE && nextPieceType == 0
      ensures dropSpeedUs == BASE_DROP_SPEED_US && dropCounter == 0 && lastGhostPositions == []
    {
      board := new Board();
      state := INITIAL_STATE;
      currentPiece := DEFAULT_PIECE;
      nextPieceType := 0;
      dropSpeedUs := BASE_DROP_SPEED_US;
      dropCounter := 0;
      lastGhostPositions := [];
      new;
      LoadHighScores(onFile);
    }

    /** Replaces the high-score list by the scores read from the file, best first. */
    method LoadHighScores(onFile: seq<int>)
      modifies this
      ensures state == old(state).(highScores := SortDescending(onFile))
      ensures currentPiece == old(currentPiece) && nextPieceType == old(nextPieceType)
      ensures dropSpeedUs == old(dropSpeedUs) && dropCounter == old(dropCounter)
      ensures lastGhostPositions == old(lastGhostPositions)
    {
      state := state.(highScores := SortDescending(onFile));
    }

    /** Whether `piece` may stand where it is: columns on the board, above the bottom, on no block. */
    method CanSpawn(piece: Piece) returns (ok: bool)
      requires Valid()
      ensures ok == Fits(board.Cells(), piece)
    {
      ghost var g := board.Cells();
      for row := 0 to BLOCK_SIZE
        invariant forall r: Coord, c: Coord | r < row :: CellFits(g, piece, r, c)
      {
        for col := 0 to BLOCK_SIZE
          invariant forall r: Coord, c: Coord | r < row || (r == row && c < col) :: CellFits(g, piece, r, c)
        {
          var cell := GetCell(piece.kind, piece.rotation, row, col);
          if cell == ' ' {
            continue;
          }
          var xt, yt := piece.pos.x + col, piece.pos.y + row;
          if xt < 0 || xt >= BOARD_WIDTH {
            assert !CellFits(g, piece, row, col);
            return false;
          }
          if yt >= BOARD_HEIGHT {
            assert !CellFits(g, piece, row, col);
            return false;
          }
          if yt >= 0 {
            var gridCell := board.grid[yt, xt];
            if gridCell != ' ' && gridCell != '.' {
              assert !CellFits(g, piece, row, col);
              return false;
            }
          }
        }
      }
      return true;
    }

    /** Whether the current piece, shifted by (dx, dy) and in rotation state newRotation, may stand there. */
    method CanMove(dx: int, dy: int, newRotation: Rotation) returns (ok: bool)
      requires Valid()
      ensures ok == Fits(board.Cells(), currentPiece.Placed(dx, dy, newRotation))
    {
      ok := CanSpawn(currentPiece.Placed(dx, dy, newRotation));
    }

    /** One pass of the ghost scan: whether every filled cell of `shadow` has a free, non-bottom cell below it. */
    method RowBelowFree(shadow: Piece) returns (canMoveDown: bool)
      requires Valid() && ColumnsInRange(shadow)
      ensures canMoveDown == Fits(board.Cells(), shadow.Moved(0, 1))
    {
      ghost var g := board.Cells();
      DropsIffFitsBelow(g, shadow);
      for row := 0 to BLOCK_SIZE
        invariant forall r: Coord, c: Coord | r < row :: CellDrops(g, shadow, r, c)
      {
        for col := 0 to BLOCK_SIZE
          invariant forall r: Coord, c: Coord | r < row || (r == row && c < col) :: CellDrops(g, shadow, r, c)
        {
          var cell := GetCell(shadow.kind, shadow.rotation, row, col);
          if cell == ' ' {
            continue;
          }
          assert Filled(shadow.kind, shadow.rotation, row, col);
          var xt, yt := shadow.pos.x + col, shadow.pos.y + row + 1;
          if yt >= BOARD_HEIGHT {
            assert !CellDrops(g, shadow, row, col);
            return false;
          }
          if yt >= 0 {
            var gridCell := board.grid[yt, xt];
            if gridCell != ' ' && gridCell != '.' {
              assert !CellDrops(g, shadow, row, col);
              return false;
            }
          }
        }
      }
      return true;
    }

    /**
     * Copies the current piece and moves the copy down while the row below
     * is free, ignoring ghost dots: the row where a hard drop would land.
     */
    method CalculateGhostPiece() returns (shadow: Piece)
      requires Valid() && ColumnsInRange(currentPiece)
      ensures shadow == Landing(board.Cells(), currentPiece)
    {
      ghost var g := board.Cells();
      shadow := currentPiece;
      var canMoveDown := true;
      while canMoveDown
        invariant shadow == currentPiece.AtRow(shadow.pos.y) && ColumnsInRange(shadow)
        invariant Landing(g, shadow) == Landing(g, currentPiece)
        invariant !canMoveDown ==> !Fits(g, shadow.Moved(0, 1))
        decreases Landing(g, currentPiece).pos.y - shadow.pos.y + (if canMoveDown then 1 else 0)
      {
        canMoveDown := RowBelowFree(shadow);
        if canMoveDown {
          shadow := shadow.Moved(0, 1);
        }
      }
    }

    /** Sets back to blank every recorded ghost cell that still holds a dot, then forgets the record. */
    method ClearAllGhostDots()
      requires Valid()
      modifies this, board.grid
      ensures board.Cells() == EraseDots(old(board.Cells()), old(lastGhostPositions))
      ensures lastGhostPositions == []
      ensures state == old(state) && currentPiece == old(currentPiece) && nextPieceType == old(nextPieceType)
      ensures dropSpeedUs == old(dropSpeedUs) && dropCounter == old(dropCounter)
    {
      ghost var before := board.Cells();
      var marks := lastGhostPositions;
      for k := 0 to |marks|
        modifies board.grid
        invariant forall i, j | 0 <= i < BOARD_HEIGHT && 0 <= j < BOARD_WIDTH ::
          board.grid[i, j] == if Position(j, i) in marks[..k] && before[i][j] == '.' then ' ' else before[i][j]
      {
        var pos := marks[k];
        assert marks[..k + 1] == marks[..k] + [pos];
        if InsideBoard(pos.x, pos.y) && board.grid[pos.y, pos.x] == '.' {
          board.grid[pos.y, pos.x] := ' ';
        }
      }
      assert marks[..|marks|] == marks;
      lastGhostPositions := [];
      assert forall i | 0 <= i < BOARD_HEIGHT :: board.Cells()[i] == EraseDots(before, marks)[i];
    }

    /** The board after ghost marking has visited the template cells before index n. */
    ghost predicate DottedBefore(shadow: Piece, before: Grid, n: int)
      requires Valid() && WellFormed(before)
      reads board.grid
    {
      forall i, j | 0 <= i < BOARD_HEIGHT && 0 <= j < BOARD_WIDTH ::
        board.grid[i, j] == if Covers(shadow, i, j) && before[i][j] == ' ' && Visited(shadow, i, j, n)
          then '.' else before[i][j]
    }

    /** Once every template cell is visited, the board is the ghost-stamped grid. */
    lemma DottedEverywhere(shadow: Piece, before: Grid)
      requires Valid() && WellFormed(before) && DottedBefore(shadow, before, 16)
      ensures board.Cells() == GhostStamp(before, shadow)
    {
      assert forall i | 0 <= i < BOARD_HEIGHT :: board.Cells()[i] == GhostStamp(before, shadow)[i];
    }

    /** Ghost marking at one template cell: a blank board cell under a filled cell becomes a dot and is reported. */
    method MarkGhostCell(shadow: Piece, row: Coord, col: Coord, ghost before: Grid) returns (dot: seq<Position>)
      requires Valid() && WellFormed(before) && DottedBefore(shadow, before, 4 * row + col)
      modifies board.grid
      ensures DottedBefore(shadow, before, 4 * row + col + 1)
      ensures dot == TrailAt(before, shadow, row, col)
    {
      dot := [];
      var cell := GetCell(shadow.kind, shadow.rotation, row, col);
      if cell == ' ' {
        return;
      }
      var xt, yt := shadow.pos.x + col, shadow.pos.y + row;
      if !InsideBoard(xt, yt) {
        return;
      }
      if board.grid[yt, xt] == ' ' {
        board.grid[yt, xt] := '.';
        dot := [Position(xt, yt)];
      }
    }

    /** Dots every blank board cell under the ghost piece and records each dotted cell, in template order. */
    method PlaceGhostPiece(shadow: Piece)
      requires Valid()
      modifies this, board.grid
      ensures board.Cells() == GhostStamp(old(board.Cells()), shadow)
      ensures lastGhostPositions == old(lastGhostPositions) + GhostTrail(old(board.Cells()), shadow)
      ensures state == old(state) && currentPiece == old(currentPiece) && nextPieceType == old(nextPieceType)
      ensures dropSpeedUs == old(dropSpeedUs) && dropCounter == old(dropCounter)
    {
      ghost var before := board.Cells();
      var dotted: seq<Position> := [];
      for row := 0 to BLOCK_SIZE
        modifies board.grid
        invariant DottedBefore(shadow, before, 4 * row)
        invariant dotted == TrailUpTo(before, shadow, row, 0)
      {
        for col := 0 to BLOCK_SIZE
          modifies board.grid
          invariant DottedBefore(shadow, before, 4 * row + col)
          invariant dotted == TrailUpTo(before, shadow, row, col)
        {
          var dot := MarkGhostCell(shadow, row, col, before);
          dotted := dotted + dot;
        }
      }
      DottedEverywhere(shadow, before);
      lastGhostPositions := lastGhostPositions + dotted;
    }

    /** Sets the gravity period from the current level. */
    method UpdateDifficulty()
      requires Valid()
      modifies this
      ensures Snap() == old(Snap()).(dropSpeedUs := ComputeDropSpeedUs(state.level))
    {
      dropSpeedUs := ComputeDropSpeedUs(state.level);
    }

    /** Brings in the pending kind at the spawn point; ends the game if it does not fit, else draws the next kind. */
    method SpawnNewPiece(roll: PieceKind)
      requires Valid()
      modifies this
      ensures Snap() == Spawn(old(Snap()), roll)
    {
      var spawnX := BOARD_WIDTH / 2 - BLOCK_SIZE / 2;
      var spawn := Piece(nextPieceType, 0, Position(spawnX, -1));
      currentPiece := spawn;
      var ok := CanSpawn(spawn);
      if !ok {
        state := state.(running := false);
        return;
      }
      nextPieceType := roll;
    }

    /**
     * Credits `lines` cleared rows: line total, score by the level, new level
     * and gravity period. Past the five-entry table the lookup yields `stray`.
     */
    method ScoreLines(lines: nat, stray: int)
      requires Valid()
      modifies this
      ensures Snap() == old(Snap()).(state := AfterLock(old(state), lines, stray),
        dropSpeedUs := if lines > 0 then ComputeDropSpeedUs(AfterLock(old(state), lines, stray).level) else old(dropSpeedUs))
    {
      if lines > 0 {
        state := state.(linesCleared := state.linesCleared + lines);
        state := state.(score := state.score + LineScore(lines, stray) * state.level);
        state := state.(level := 1 + state.linesCleared / 10);
        UpdateDifficulty();
      }
    }

    /**
     * Erases the recorded ghost dots, stamps the current piece, clears full
     * rows, scores them and levels up, then spawns the next piece; reports
     * whether the game still runs.
     */
    method LockPieceAndCheck(roll: PieceKind, stray: int) returns (running: bool)
      requires Valid()
      modifies this, board.grid
      ensures Snap() == Lock(old(Snap()), roll, stray)
      ensures running == state.running
    {
      ClearAllGhostDots();
      board.PlacePiece(currentPiece, true);
      var lines := board.ClearLines();
      ScoreLines(lines, stray);
      SpawnNewPiece(roll);
      running := state.running;
    }

    /** One row down if free; otherwise game over above the board, else lock and restart the sub-tick count. */
    method SoftDrop(roll: PieceKind, stray: int)
      requires Valid()
      modifies this, board.grid
      ensures Snap() == TetrisRules.SoftDrop(old(Snap()), roll, stray)
    {
      var ok := CanMove(0, 1, currentPiece.rotation);
      if ok {
        currentPiece := currentPiece.Moved(0, 1);
      } else {
        if currentPiece.pos.y < 0 {
          state := state.(running := false);
          return;
        }
        var running := LockPieceAndCheck(roll, stray);
        state := state.(running := running);
        dropCounter := 0;
      }
    }

    /** Moves down while the row below is free, then ends the game above the board or locks. */
    method HardDrop(roll: PieceKind, stray: int)
      requires Valid()
      modifies this, board.grid
      ensures Snap() == TetrisRules.HardDrop(old(Snap()), roll, stray)
    {
      ghost var g := board.Cells();
      var canDown := CanMove(0, 1, currentPiece.rotation);
      while canDown
        modifies this
        invariant currentPiece == old(currentPiece).AtRow(currentPiece.pos.y)
        invariant Landing(g, currentPiece) == Landing(g, old(currentPiece))
        invariant canDown == Fits(g, currentPiece.Moved(0, 1))
        invariant Snap() == old(Snap()).(piece := currentPiece)
        decreases Landing(g, old(currentPiece)).pos.y - currentPiece.pos.y
      {
        currentPiece := currentPiece.Moved(0, 1);
        canDown := CanMove(0, 1, currentPiece.rotation);
      }
      if currentPiece.pos.y < 0 {
        state := state.(running := false);
        return;
      }
      var running := LockPieceAndCheck(roll, stray);
      state := state.(running := running);
      dropCounter := 0;
    }

    /** A clockwise quarter-turn trying the kicks in table order; the first that fits is committed. */
    method Rotate()
      requires Valid()
      modifies this
      ensures Snap() == old(Snap()).(piece := Rotated(board.Cells(), old(currentPiece)))
    {
      ghost var g := board.Cells();
      ghost var p0 := currentPiece;
      var newRot := NextRotation(currentPiece.rotation);
      var kicks := KICKS;
      for k := 0 to |kicks|
        invariant unchanged(this)
        invariant KickFrom(g, p0, newRot, k) == Rotated(g, p0)
      {
        var dx := kicks[k];
        var ok := CanMove(dx, 0, newRot);
        if ok {
          currentPiece := currentPiece.Placed(dx, 0, newRot);
          assert currentPiece == Rotated(g, p0);
          break;
        }
      }
    }

    /**
     * Acts on one decoded key: the pause and ghost toggles always, quitting
     * while paused, and otherwise moves, drops, rotation and quitting.
     */
    method HandleInput(c: char, roll: PieceKind, stray: int)
      requires Valid()
      modifies this, board.grid
      ensures Snap() == TetrisRules.HandleInput(old(Snap()), c, roll, stray)
    {
      if c == NO_KEY {
        return;
      }
      if c == 'p' {
        state := state.(paused := !state.paused);
        return;
      }
      if c == 'g' {
        state := state.(ghostEnabled := !state.ghostEnabled);
        return;
      }
      if state.paused {
        if c == 'q' {
          state := state.(running := false, quitByUser := true);
        }
        return;
      }
      match c {
        case 'a' =>
          var ok := CanMove(-1, 0, currentPiece.rotation);
          if ok {
            currentPiece := currentPiece.Moved(-1, 0);
          }
        case 'd' =>
          var ok := CanMove(1, 0, currentPiece.rotation);
          if ok {
            currentPiece := currentPiece.Moved(1, 0);
          }
        case 's' =>
          SoftDrop(roll, stray);
        case ' ' =>
          HardDrop(roll, stray);
        case 'w' =>
          Rotate();
        case 'q' =>
          state := state.(running := false, quitByUser := true);
        case _ =>
      }
    }

    /** One logic step: count a sub-tick and, every DROP_INTERVAL_TICKS-th time, move down, end the game or lock. */
    method HandleGravity(roll: PieceKind, stray: int)
      requires Valid()
      modifies this, board.grid
      ensures Snap() == TetrisRules.HandleGravity(old(Snap()), roll, stray)
    {
      if !state.running || state.paused {
        return;
      }
      dropCounter := dropCounter + 1;
      if dropCounter < DROP_INTERVAL_TICKS {
        return;
      }
      dropCounter := 0;
      var ok := CanMove(0, 1, currentPiece.rotation);
      if ok {
        currentPiece := currentPiece.Moved(0, 1);
      } else {
        if currentPiece.pos.y < 0 {
          state := state.(running := false);
          return;
        }
        var running := LockPieceAndCheck(roll, stray);
        state := state.(running := running);
      }
    }

    /** Restarts: fresh statistics and board, sub-tick count zero, a pre-drawn next kind, then a spawn. */
    method ResetGame(firstRoll: PieceKind, roll: PieceKind)
      requires Valid()
      modifies this, board.grid
      ensures Snap() == Reset(old(Snap()), firstRoll, roll)
    {
      state := state.(running := true, paused := false, quitByUser := false);
      state := state.(score := 0, level := 1, linesCleared := 0);
      board.Init();
      dropCounter := 0;
      nextPieceType := firstRoll;
      SpawnNewPiece(roll);
    }

    /** The start of a round: fresh board, a pre-drawn next kind, the level's gravity period, then a spawn. */
    method StartRound(firstRoll: PieceKind, roll: PieceKind)
      requires Valid()
      modifies this, board.grid
      ensures Snap() == TetrisRules.StartRound(old(Snap()), firstRoll, roll)
    {
      board.Init();
      nextPieceType := firstRoll;
      UpdateDifficulty();
      SpawnNewPiece(roll);
    }

    /** The per-frame ghost update: erase the old dots, then dot the landing footprint when it is enabled and apart. */
    method RefreshGhost()
      requires Valid() && ColumnsInRange(currentPiece)
      modifies this, board.grid
      ensures Snap() == TetrisRules.RefreshGhost(old(Snap()))
    {
      ClearAllGhostDots();
      if state.ghostEnabled {
        var shadow := CalculateGhostPiece();
        if shadow.pos.y != currentPiece.pos.y {
          PlaceGhostPiece(shadow);
        }
      }
    }

    /**
     * One pass of the main loop: a key; nothing more while paused or once the
     * game has stopped; else gravity, the ghost refresh, and the piece drawn
     * into the board for display and erased again.
     */
    method Frame(c: char, roll: PieceKind, gravityRoll: PieceKind, stray: int)
      requires Valid() && ColumnsInRange(currentPiece)
      modifies this, board.grid
      ensures Snap() == TetrisRules.Frame(old(Snap()), c, roll, gravityRoll, stray)
    {
      InputKeepsColumns(Snap(), c, roll, stray);
      HandleInput(c, roll, stray);
      if state.paused || !state.running {
        return;
      }
      GravityKeepsColumns(Snap(), gravityRoll, stray);
      HandleGravity(gravityRoll, stray);
      RefreshGhost();
      board.PlacePiece(currentPiece, true);
      board.PlacePiece(currentPiece, false);
    }
  }
}
