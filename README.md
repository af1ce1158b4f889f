# Terminal Tetris, modelled in Dafny

The repository holds two versions of one terminal Tetris game.

- **The classic game** (`main.cpp`) is a single file. It has a 20 x 15
  character grid, walls of `#`, and a ceiling with a gap over columns 5..9.
  It has seven tetromino templates and rotation by index arithmetic, with
  kicks `0, -1, 1, -2, 2`. Gravity moves the piece one row every fifth logic
  step. There is no scoring.
- **The modular game** (`TetrisGame.cpp`, `TetrisGame.h`, `GameState.h`,
  `Piece.h`) adds several things:
  - a pre-drawn next piece;
  - scores and levels, where each level of ten lines shortens the gravity
    period;
  - a ghost piece that dots the landing footprint with `.`, where dots never
    block a move;
  - kicks out to +-3;
  - arrow-key escape decoding;
  - pause, ghost and quit keys;
  - a top-ten high-score table.

The model keeps each version's shape.

- The grid is an object updated in place: `Boards.Board` holds an `array2<char>`.
  Row clearing compacts the rows bottom-up in place, as the source does.
- Each game controller is a class whose fields are the source's fields:
  `Tetris.TetrisGame` and `Classic.ClassicGame`.
- Each state-changing method is proved equal to a function of the old
  state, as a whole-state snapshot. Those functions live in `TetrisRules` and
  `ClassicRules`.
- Lemmas prove what the game promises:
  - a running piece always fits;
  - the walls stand;
  - in the corrected game, where a lock erases the logged ghost dots first (see Findings), no full row survives a lock;
  - the level follows the line total, and in the corrected game the score never drops;
  - gravity waits exactly five sub-ticks;
  - the first fitting kick wins;
  - ghost dots never block and are erased exactly;
  - arrow sequences decode to their letters;
  - the saved high-score table is the descending top ten with a correct rank.

Modules, in dependency order:

1. `Geometry`: the templates, the rotation transform, `GetCell`.
2. `Pieces`: positions, pieces, the spawn point.
3. `Playfield`: grids, the initial layout, row compaction.
4. `Collision`: both versions' fit tests, landing, stamping, ghost dots.
5. `Boards`: the mutable board.
6. `GameStates`, `Scoring`, `Input`, `HighScores`.
7. `TetrisRules` and `Tetris`: the modular game.
8. `ClassicRules` and `Classic`: the classic game.

The random generator becomes parameters. Each method that draws a piece
kind takes that draw as an argument (`roll`).

## Model

| member | source | states |
|---|---|---|
| Geometry.GetCell | main.cpp:176-187 | The quarter-turn loop returns exactly the template cell reached by turning (row, col) `rotation` times. |
| Geometry.FourTurnsIdentity | main.cpp:180-184 | Four clockwise quarter-turns of the 4x4 index map bring every cell back to itself. |
| Geometry.TurnPeriodic | main.cpp:180-184 | Turning n+4 times is the same as turning n times, for every n. |
| Geometry.RotationWrapsAround | main.cpp:176-187 | Rotation states r and r+4 read identical template cells, so `(rotation + 1) % 4` loses nothing. |
| Geometry.CellsHoldTheKindsLetter | main.cpp:151-172 | Every template cell is blank or the kind's letter (I O T S Z J L), and no letter is blank. |
| Geometry.OneMoreTurn | main.cpp:180-184 | One more rotation maps cell (row, col) to cell (3 - col, row) of the previous rotation. |
| Geometry.TurnedRowIsColumn | main.cpp:180-184 | Row `row` of the next rotation holds as many cells as column `row` of this one. |
| Geometry.TurnKeepsCellCount | main.cpp:176-187 | Rotating never changes how many cells a piece fills. |
| Geometry.FourCellsPerPiece | main.cpp:160-168 | Every kind, in every rotation state, fills exactly four cells. |
| Geometry.KeyCellFilled | main.cpp:160-168 | In each rotation state, one fixed template cell is filled for all seven kinds. |
| Geometry.SpawnShapeColumns | main.cpp:160-168 | Unrotated templates use only columns 0..2, so a spawned piece never reaches the right wall. |
| Pieces.SpawnColumnsInRange | TetrisGame.cpp:603-607 | The spawn column `BOARD_WIDTH / 2 - BLOCK_SIZE / 2` is 5, and a freshly spawned piece's columns are on the board. |
| Playfield.ClearFullCell | main.cpp:112-144 | After clearing, each interior cell holds the compacted rows' cell and each border cell is untouched. |
| Playfield.ClearFullCellOrigin | main.cpp:112-144 | Every cell after clearing is blank or was already in its column before. |
| Playfield.KeptMembers | main.cpp:116-135 | A row survives clearing iff it was present and not full. |
| Playfield.KeptAndFullPartition | main.cpp:116-135 | Kept rows plus full rows account for every interior row. |
| Playfield.KeptConcat | main.cpp:116-135 | Clearing scans the rows independently: it distributes over concatenation. |
| Playfield.KeptAllWhenNoneFull | main.cpp:116-135 | Without full rows every row is kept, in order. |
| Playfield.CompactWithoutFullRows | main.cpp:112-144 | Compacting rows none of which is full changes nothing. |
| Playfield.CompactLeavesNoFullRow | main.cpp:112-144 | After compaction no interior row is full. |
| Playfield.InteriorOfClearFull | main.cpp:112-144 | The interior after clearing is the compaction of the interior before. |
| Playfield.ClearFullWithoutFullRows | main.cpp:112-144 | Clearing a grid without full rows leaves it unchanged. |
| Playfield.ClearFullLeavesNoFullRow | main.cpp:112-144 | Clearing leaves no full row and is idempotent. |
| Playfield.InitialGridHasNoFullRow | main.cpp:42-66 | The initial layout has walls and ceiling in place and no full interior row. |
| Playfield.ClearFullKeepsWalls | main.cpp:112-144 | Clearing never touches the walls, floor or ceiling. |
| Playfield.EmptyInteriorOfInitialGrid | main.cpp:399-404 | Blanking the interior of a fresh board changes nothing. |
| Playfield.EmptyInteriorIsClear | main.cpp:399-404 | A blanked interior has no full row, keeps the walls, and blanking twice is blanking once. |
| Playfield.FullRowsInWindow | TetrisGame.cpp:636-637 | If only rows in a four-row window can be full, at most four are: the score table index stays in range. |
| Collision.Landing | TetrisGame.cpp:427-469 | The ghost is the piece in the same column and rotation at the lowest row reachable by fitting one-row steps, and it cannot go one further. |
| Collision.ClassicLanding | main.cpp:335-337 | The hard-drop loop ends at the same piece moved down while each step is a legal classic move, where the next step is not. |
| Collision.FitsColumnsInRange | TetrisGame.cpp:498-523 | A placement that passes the modular fit test has all its filled columns on the board. |
| Collision.DropsIffFitsBelow | TetrisGame.cpp:436-466 | The ghost loop's own row-below test agrees with `canMove(0, 1)`. |
| Collision.ClassicMoveFitsImpliesFits | main.cpp:266-281 | A legal classic move also passes the modular fit test. |
| Collision.AboveBoardFits | TetrisGame.cpp:487-492 | A placement wholly above row 0 fits whatever the board holds. |
| Collision.GhostDotsNeverBlock | TetrisGame.cpp:514-519 | Dotting any ghost footprint changes no fit answer for any piece. |
| Collision.FreshBoardAcceptsEverySpawn | TetrisGame.cpp:603-611 | On the initial board every kind spawns, under both versions' spawn tests. |
| Collision.StampKeepsWalls | TetrisGame.cpp:525-542 | Drawing or erasing a fitting piece leaves walls, floor and ceiling standing. |
| Collision.ClassicStampKeepsWalls | main.cpp:283-297 | Drawing or erasing a piece that passes the classic spawn test leaves the walls standing. |
| Collision.ClassicMoveFitsImpliesSpawnFits | main.cpp:242-281 | A legal classic move is also a legal classic spawn placement. |
| Collision.ClassicDrawEraseRestores | main.cpp:424-426 | Drawing the piece for display and erasing it again restores the board whenever the piece passes the classic spawn test. |
| Collision.DrawThenErase | TetrisGame.cpp:1001-1007 | Drawing then erasing a piece equals erasing it alone. |
| Collision.EraseRestoresBlankFootprint | TetrisGame.cpp:1001-1007 | Drawing then erasing over a blank footprint restores the grid. |
| Collision.SafeStampWritesOnlyBlanks | TetrisGame.cpp:578-597 | The final safe stamp changes only blank cells, and only to non-blank letters. |
| Collision.TrailUpToMembers | TetrisGame.cpp:556-576 | The dotted-cell log holds exactly the dotted positions among the template cells scanned so far. |
| Collision.GhostRoundTrip | TetrisGame.cpp:544-576 | Erasing the logged dots after dotting a ghost restores the grid exactly. |
| Collision.GhostTrailRecordsDots | TetrisGame.cpp:570-573 | A position is logged iff it is on the board, was blank, and now holds a dot. |
| Collision.GhostStampWritesOnlyBlanks | TetrisGame.cpp:570-571 | Dotting changes only blank cells, and only to `.`. |
| Collision.NoFullRowLockInRange | TetrisGame.cpp:624-637 | Locking on a board without full rows clears at most four rows. |
| Collision.ErasingDotsKeepsFits | TetrisGame.cpp:544-554 | Erasing dots changes no fit answer for any piece. |
| Collision.ErasingDotsKeepsWallsAndRows | TetrisGame.cpp:544-554 | Erasing dots keeps the walls and adds no full row. The result is dot-free iff every dot was at an erased position. |
| Collision.ErasingUnrecordedChangesNothing | TetrisGame.cpp:544-554 | Erasing positions that hold no dot changes nothing. |
| Collision.LandingSameFits | TetrisGame.cpp:427-469 | Boards with the same fit answers give the same landing placement. |
| Collision.StampKeepsNoDots | TetrisGame.cpp:525-542 | Drawing or erasing a piece on a dot-free board leaves it dot-free. |
| Collision.ClearFullKeepsNoDots | main.cpp:112-144 | Clearing rows on a dot-free board leaves it dot-free. |
| Collision.DrawEraseOverRecordedDots | TetrisGame.cpp:1001-1007 | The display draw and erase of a fitting piece changes nothing once the logged dots are erased, and logs no new dot. |
| StaleGhost.StaleDotsCountFiveRows | TetrisGame.cpp:979-998 | A concrete game: a consistent start, one frame with no key, then a 'w' that kicks an upright I flat onto row 10 above its own ghost's dots. The next gravity step locks it, and as written the stamped board has five full rows, so the score grows by the value read past the table. With the dots erased first, the lock stays within the table. |
| Boards.Board.constructor | main.cpp:38-39 | A new board's grid is zero-filled. |
| Boards.Board.Init | main.cpp:42-66 | After initialisation the grid is the walled layout with its ceiling gap. |
| Boards.Board.RowFull | main.cpp:117-123 | Reports a row full iff none of its interior cells is blank. |
| Boards.Board.CopyRow | main.cpp:127-131 | Copies one row's interior cells into another and changes nothing else. |
| Boards.Board.BlankRow | main.cpp:138-142 | Blanks one row's interior and changes nothing else. |
| Boards.Board.PackRows | main.cpp:113-135 | The bottom-up pass leaves the kept rows compacted at the bottom, counts the full rows, and keeps the border. |
| Boards.Board.ClearLines | main.cpp:112-144 | The board becomes its cleared version and the result is the number of full rows. |
| Boards.Board.BlankInterior | main.cpp:399-404 | Every interior cell becomes blank, and the border stays. |
| Boards.Board.PlacePiece | TetrisGame.cpp:525-542 | Writes (or blanks) exactly the piece's on-board cells. |
| Boards.Board.PlacePieceSafe | TetrisGame.cpp:578-597 | Writes the piece's letters into exactly its blank on-board cells. |
| HighScores.Insert | TetrisGame.cpp:128-131 | Inserting into a descending list keeps it descending and adds exactly one copy of the score. |
| HighScores.SortDescending | TetrisGame.cpp:34-36 | The result is descending and a permutation of the input. |
| HighScores.KeepTop | TetrisGame.cpp:133-136 | Keeps a prefix of at most ten scores, and everything when there are ten or fewer. |
| HighScores.SaveAndGetRank | TetrisGame.cpp:115-155 | Saves the descending top ten of the file plus the run's score, and the rank is one past the scores before the first equal one. |
| HighScores.RankOf | TetrisGame.cpp:147-152 | The rank is the 1-based position of the first equal score, or one past the end. |
| HighScores.SortedPermutationUnique | TetrisGame.cpp:131 | Two descending permutations of one multiset are equal, so the descending sort has one result. |
| HighScores.SortIsTheDescendingPermutation | TetrisGame.cpp:131 | Any descending permutation of the scores is what the sort produces. |
| HighScores.RankCountsHigherScores | TetrisGame.cpp:147-152 | In a descending table the rank is one plus the number of strictly higher scores. |
| HighScores.RoomMeansRanked | TetrisGame.cpp:127-136 | With fewer than ten scores on file, the run's score is saved and the table grows by one. |
| Input.DecodeKey | TetrisGame.cpp:364-386 | No byte means no key. A plain byte is itself. An escape becomes ESC or an arrow letter, and an arrow consumes three bytes starting ESC '['. |
| Input.ArrowRoundTrip | TetrisGame.cpp:374-380 | Each arrow's byte sequence decodes to its movement letter. |
| Input.OtherEscapesDecodeToEsc | TetrisGame.cpp:369-383 | Any other three-byte escape sequence decodes to ESC. |
| Input.DecodeAll | TetrisGame.cpp:364-386 | Decoding a byte stream yields no more keys than bytes, starting with the first key. |
| Input.PlainBytesDecodeAsThemselves | TetrisGame.cpp:385 | A stream without escapes decodes to itself. |
| Scoring.ComputeDropSpeedUs | TetrisGame.cpp:811-822 | The period lies in 80000..500000 microseconds and divides evenly into five sub-ticks. It is the base period exactly for levels up to 3. |
| Scoring.AfterLock | TetrisGame.cpp:633-640 | Adds the cleared lines. Adds 0/100/300/500/800 times the level to the score, or `stray` times the level when more than four lines would index past the table. Changes no other statistic. |
| Scoring.AfterLockKeepsLevelInStep | TetrisGame.cpp:633-640 | The level stays 1 + lines/10 and never decreases, and within the table the score never decreases. |
| Scoring.LevelUpExactlyAtTens | TetrisGame.cpp:639-644 | A lock raises the level by at most one, exactly when it crosses a multiple of ten lines. |
| Scoring.DropSpeedNonIncreasing | TetrisGame.cpp:811-822 | A higher level never has a longer gravity period. |
| Scoring.InitialSpeedMatchesLevelOne | TetrisGame.h:40 | The initial period is the level-1 period, and the initial statistics satisfy the level rule. |
| TetrisRules.Spawn | TetrisGame.cpp:599-618 | The pending kind appears at the spawn point. The game keeps running iff it fits there, and a running piece fits. |
| TetrisRules.KickFrom | TetrisGame.cpp:736-747 | The result is the piece itself or a fitting quarter-turn shifted by a kick from the rest of the table. |
| TetrisRules.LockAsWritten | TetrisGame.cpp:620-653 | The lock as the source writes it stamps the piece on the board as it stands, dots included, and adds that board's full rows to the line total. The dot log is kept and the pending kind spawns. |
| TetrisRules.Lock | TetrisGame.cpp:620-653 | The corrected lock erases the logged dots first, so it leaves an empty log, and the pending kind spawns. |
| TetrisRules.LockClearsAtMostFourRows | TetrisGame.cpp:624-637 | Once the logged dots are erased from a board without full rows, a lock clears at most four rows. It never reads past the score table, so the stray value plays no part, and it never lowers score or level. |
| TetrisRules.LockIgnoresDots | TetrisGame.cpp:544-554 | The corrected lock leaves no dot when every dot was logged. Erasing twice is erasing once, and locking a cleaned state is the same lock. |
| TetrisRules.CleanedKeepsConsistent | TetrisGame.cpp:544-554 | Erasing the logged dots keeps the game invariant. |
| TetrisRules.InputKeepsColumns | TetrisGame.cpp:685-756 | Every key keeps the piece's filled columns on the board. |
| TetrisRules.GravityKeepsColumns | TetrisGame.cpp:758-777 | Every gravity step keeps the piece's filled columns on the board. |
| TetrisRules.InputIgnoresDots | TetrisGame.cpp:685-756 | A key acts alike with or without the logged dots: erasing them commutes with the key, and every dot stays logged. |
| TetrisRules.GravityIgnoresDots | TetrisGame.cpp:758-777 | With the corrected lock, a gravity step acts alike with or without the logged dots: erasing them commutes with it, and every dot stays logged. |
| TetrisRules.InputKeepsConsistentModuloDots | TetrisGame.cpp:685-756 | In a running game, every key keeps the invariant of the board without its logged dots, and keeps every dot logged. |
| TetrisRules.GravityKeepsConsistentModuloDots | TetrisGame.cpp:758-777 | With the corrected lock, every gravity step keeps the invariant of the board without its logged dots, and keeps every dot logged. |
| TetrisRules.RefreshKeepsConsistentModuloDots | TetrisGame.cpp:991-998 | The ghost refresh keeps the invariant modulo logged dots, and the board without dots is unchanged. |
| TetrisRules.FrameKeepsConsistentModuloDots | TetrisGame.cpp:979-1010 | With the corrected lock, a frame that leaves the game running keeps the invariant modulo logged dots. After an unpaused frame, the dot-free state is what the key and gravity make of the dot-free state before. |
| TetrisRules.SpawnKeepsNextOnlyOnFailure | TetrisGame.cpp:611-617 | A blocked spawn keeps the pending kind, a successful one takes the new draw, and the piece is the pending kind at (5, -1). |
| TetrisRules.LockProgress | TetrisGame.cpp:620-653 | The lock as written keeps the level rule and never lowers the level. It never lowers the score when at most four rows clear, leaves no full row, and sets the period only after a clear. |
| TetrisRules.RotationTakesFirstFittingKick | TetrisGame.cpp:736-747 | When kick k is the first that fits, rotation commits exactly that kick. |
| TetrisRules.RotationFailsOnlyWhenNoKickFits | TetrisGame.cpp:736-747 | Rotation leaves the piece alone iff no kick fits. Otherwise the result fits and is one quarter-turn on. |
| TetrisRules.SpawnConsistent | TetrisGame.cpp:599-618 | Spawning on a sound board gives a state satisfying the game invariant. |
| TetrisRules.LockConsistent | TetrisGame.cpp:620-653 | Locking a fitting piece preserves the game invariant: walls, no full rows, level rule, a fitting running piece. |
| TetrisRules.InputKeepsConsistent | TetrisGame.cpp:685-756 | Every key preserves the game invariant of a running game. |
| TetrisRules.GravityKeepsConsistent | TetrisGame.cpp:758-777 | Every gravity step preserves the game invariant. |
| TetrisRules.InputNeverLowersLevelOrScore | TetrisGame.cpp:685-756 | No key lowers the level or the score. |
| TetrisRules.DropsNeverLowerLevelOrScore | TetrisGame.cpp:655-683 | Neither drop lowers the level or the score. |
| TetrisRules.GravityNeverLowersLevelOrScore | TetrisGame.cpp:758-777 | With the corrected lock, no gravity step lowers the level or the score. |
| TetrisRules.GravityWaitsForFifthTick | TetrisGame.cpp:761-764 | Below the fifth sub-tick, gravity only counts. |
| TetrisRules.GravityActsOnFifthTick | TetrisGame.cpp:766-776 | On the fifth sub-tick the count restarts (or a spawn happens). The piece moves down if it can, and a blocked piece above the board ends the game. |
| TetrisRules.GravityIdleWhenStoppedOrPaused | TetrisGame.cpp:759 | A stopped or paused game ignores gravity entirely. |
| TetrisRules.BlockedAboveBoardStampsNothing | TetrisGame.cpp:660-679 | A piece blocked above the board ends the game on either drop without writing to the board. |
| TetrisRules.PausedIgnoresPlay | TetrisGame.cpp:705-713 | While paused, only 'q' acts, ending the run as quit by the user. |
| TetrisRules.ResetStartsFreshGame | TetrisGame.cpp:322-339 | A restart runs unpaused with zero score and lines, level 1, a fresh board and the first draw as piece. It satisfies the invariant, also modulo dots. |
| TetrisRules.RoundAfterResetRunsAtBaseSpeed | TetrisGame.cpp:960-976 | A round after a restart starts running at the base gravity period with the pre-drawn kind, satisfying the invariant. |
| TetrisRules.GhostRefreshRoundTrip | TetrisGame.cpp:991-998 | The refresh only moves dots: erasing its logged dots gives the same board as before, and it changes no fit answer. |
| Tetris.TetrisGame.constructor | TetrisGame.cpp:16-20 | A new controller has the header's defaults and the loaded scores in descending order. |
| Tetris.TetrisGame.LoadHighScores | TetrisGame.cpp:22-38 | The statistics' score list becomes the file's scores sorted descending, and nothing else changes. |
| Tetris.TetrisGame.CanSpawn | TetrisGame.cpp:471-496 | The nested scan returns the modular fit test of the given placement. |
| Tetris.TetrisGame.CanMove | TetrisGame.cpp:498-523 | Returns the fit test of the current piece shifted and rotated as asked. |
| Tetris.TetrisGame.RowBelowFree | TetrisGame.cpp:435-460 | The ghost loop's inner scan answers whether the shadow fits one row lower. |
| Tetris.TetrisGame.CalculateGhostPiece | TetrisGame.cpp:427-469 | Returns the current piece's landing placement. |
| Tetris.TetrisGame.ClearAllGhostDots | TetrisGame.cpp:544-554 | Blanks the logged positions that still hold dots, empties the log, and changes nothing else. |
| Tetris.TetrisGame.MarkGhostCell | TetrisGame.cpp:560-573 | Dots one template cell if blank and returns exactly the positions dotted. |
| Tetris.TetrisGame.PlaceGhostPiece | TetrisGame.cpp:556-576 | Dots the ghost's blank on-board cells and appends exactly those to the log. |
| Tetris.TetrisGame.UpdateDifficulty | TetrisGame.cpp:824-826 | Sets the gravity period from the level and changes nothing else. |
| Tetris.TetrisGame.SpawnNewPiece | TetrisGame.cpp:599-618 | The controller becomes the spawn rule's result. |
| Tetris.TetrisGame.ScoreLines | TetrisGame.cpp:625-646 | Applies the scoring rule and, after a clear, the level's period. |
| Tetris.TetrisGame.LockPieceAndCheck | TetrisGame.cpp:620-653 | Erases the logged dots, then the controller becomes the corrected lock rule's result. The result is whether the game still runs. |
| Tetris.TetrisGame.SoftDrop | TetrisGame.cpp:655-668 | The controller becomes the soft-drop rule's result. |
| Tetris.TetrisGame.HardDrop | TetrisGame.cpp:670-683 | The move-down loop ends at the landing placement, and the controller becomes the hard-drop rule's result. |
| Tetris.TetrisGame.Rotate | TetrisGame.cpp:736-747 | Only the piece changes, to the first fitting kicked quarter-turn. |
| Tetris.TetrisGame.HandleInput | TetrisGame.cpp:685-756 | The controller becomes the key-dispatch rule's result. |
| Tetris.TetrisGame.HandleGravity | TetrisGame.cpp:758-777 | The controller becomes the gravity rule's result, whose lock is the corrected one. |
| Tetris.TetrisGame.ResetGame | TetrisGame.cpp:322-339 | The controller becomes the restart rule's result. |
| Tetris.TetrisGame.StartRound | TetrisGame.cpp:960-976 | The controller becomes the round-start rule's result. |
| Tetris.TetrisGame.RefreshGhost | TetrisGame.cpp:991-998 | The controller becomes the ghost-refresh rule's result. |
| Tetris.TetrisGame.Frame | TetrisGame.cpp:979-1010 | One pass of the per-frame loop: the key, then gravity, the ghost refresh, and the display draw and erase. The controller becomes the frame rule's result, whose gravity step locks with the corrected lock. |
| ClassicRules.ClassicSpawn | main.cpp:299-310 | The drawn kind appears at the spawn point, and the game keeps running iff it passes the spawn test. |
| ClassicRules.ClassicKickFrom | main.cpp:365-376 | The result is the piece itself or a legal quarter-turn shifted by a kick from the rest of the table. |
| ClassicRules.ClassicLockEndsGameOnlyOnBlockedSpawn | main.cpp:312-323 | After a lock, the game runs iff the next piece fits the cleared board. No full row remains, and the new piece is at (5, -1). |
| ClassicRules.ClassicLockConsistent | main.cpp:312-323 | Locking a placeable piece preserves the classic invariant. |
| ClassicRules.ClassicHardDropLocksAtLanding | main.cpp:334-340 | The hard drop locks at the lowest legal row, which is placeable, and restarts the sub-tick count. |
| ClassicRules.ClassicRotationTakesFirstFittingKick | main.cpp:365-376 | When kick k is the first legal one, rotation commits exactly that kick. |
| ClassicRules.ClassicRotationFailsOnlyWhenNoKickFits | main.cpp:365-376 | Rotation leaves the piece alone iff no kick is legal, and otherwise lands on a legal placement. |
| ClassicRules.ClassicDropsKeepConsistent | main.cpp:325-340 | Both drops preserve the classic invariant. |
| ClassicRules.ClassicInputKeepsConsistent | main.cpp:342-379 | Every key preserves the classic invariant of a running game. |
| ClassicRules.ClassicGravityKeepsConsistent | main.cpp:381-393 | Every gravity step preserves the classic invariant. |
| ClassicRules.ClassicGravityWaitsForFifthTick | main.cpp:384-385 | Below the fifth sub-tick, gravity only counts. |
| ClassicRules.ClassicGravityActsOnFifthTick | main.cpp:386-392 | On the fifth sub-tick the piece moves down if legal, and otherwise locks, spawns and restarts the count. |
| ClassicRules.ClassicPausedIgnoresPlay | main.cpp:347-358 | While paused, 'p' resumes, 'q' stops, and every other key is ignored. |
| ClassicRules.ClassicStartIsConsistent | main.cpp:396-407 | The start gives the initial layout, a running game, and the classic invariant. |
| ClassicRules.ClassicFrameKeepsConsistent | main.cpp:413-428 | A frame keeps the invariant while the game runs, and its display draw and erase leave the board as gravity left it. |
| Classic.ClassicGame.constructor | main.cpp:192-202 | A new controller has a running unpaused game, the default piece, and the base period. |
| Classic.ClassicGame.CanSpawn | main.cpp:242-264 | The nested scan returns the classic spawn test. |
| Classic.ClassicGame.CanMove | main.cpp:266-281 | The nested scan returns the classic move test of the shifted and rotated current piece. |
| Classic.ClassicGame.SpawnNewPiece | main.cpp:299-310 | The controller becomes the classic spawn rule's result. |
| Classic.ClassicGame.LockPieceAndCheck | main.cpp:312-323 | The controller becomes the classic lock rule's result, and the result is whether it still runs. |
| Classic.ClassicGame.SoftDrop | main.cpp:325-332 | The controller becomes the classic soft-drop rule's result. |
| Classic.ClassicGame.HardDrop | main.cpp:334-340 | The move-down loop ends at the classic landing placement, and the controller becomes the hard-drop rule's result. |
| Classic.ClassicGame.Rotate | main.cpp:365-376 | Only the piece changes, to the first legal kicked quarter-turn. |
| Classic.ClassicGame.HandleInput | main.cpp:342-379 | The controller becomes the classic key-dispatch rule's result. |
| Classic.ClassicGame.HandleGravity | main.cpp:381-393 | The controller becomes the classic gravity rule's result. |
| Classic.ClassicGame.Start | main.cpp:396-407 | The controller becomes the classic start rule's result. |
| Classic.ClassicGame.Frame | main.cpp:413-428 | The controller becomes the classic frame rule's result. |

## Left out

- Terminal handling is not modelled: raw mode, reading the key, flushing input, and sleeping between frames. A frame's key is a parameter, and the ESC decoder works on a byte list.
- Drawing is not modelled: the board, the pause, start and game-over screens, the next-piece preview and its cache, and the game-over animations.
- Sound is not modelled. This includes the `muteLockSound` argument, which only chooses whether a sound plays.
- The random generator is not modelled. Every draw is a `roll` parameter, so the model covers all sequences of draws.
- High-score file reads and writes are not modelled. The file's contents are a parameter (`onFile`), and an unreadable file is the empty list.
- Integers are unbounded, so score, line and level counters never overflow in the model. The source stores them in a 32-bit `int`.
- `Board.h` and `BlockTemplate.h` are not part of this model. The modular game's board initialisation, row clearing and templates use the `main.cpp` definitions, which `TetrisGame.cpp` calls with the same meaning.
- The outer loops are not modelled as loops: `run`'s restart loop and per-frame loop. The model covers one frame of each version (`ClassicRules.ClassicFrame`, `TetrisRules.Frame`), plus the modular round start and restart.
- Reading past the five-entry score table is undefined in C++. The model takes the value read as a parameter (`stray`) of every operation that can lock, so a lock is total for every line count.
- Scoring.LevelUpExactlyAtTens: requires at most four lines per lock. More lines can reach the score table only through the stray dots described under Findings.
- TetrisRules.InputKeepsConsistent: requires a running game, because `run` handles keys only while the round is running.
- Tetris.TetrisGame.LockPieceAndCheck: erases the logged ghost dots before locking, which the source does not do. The lock as the source writes it is `TetrisRules.LockAsWritten`, and the Findings table explains the difference.
- Tetris.TetrisGame.HandleGravity: locks with the corrected lock. It parts from the source when a key moves or turns the piece ('a', 'd', 'w') and gravity locks it in the same frame: the source then counts the previous frame's dots (`StaleGhost.StaleDotsCountFiveRows`).
- Tetris.TetrisGame.Frame: its gravity step locks with the corrected lock, so it parts from the source in the same case, a key that moves or turns the piece followed by a gravity lock in one frame.
- TetrisRules.GravityIgnoresDots: is proved of the corrected gravity step. The source's gravity lock after an 'a', 'd' or 'w' in the same frame sees the stale dots and does not commute with erasing them.
- TetrisRules.GravityKeepsConsistentModuloDots: is proved of the corrected gravity step. As written, the gravity lock after a key that moves or turns the piece can read past the score table, so the invariant's score bound is not kept.
- TetrisRules.FrameKeepsConsistentModuloDots: is proved of a frame whose gravity step uses the corrected lock. As written, a frame with a key that moves or turns the piece followed by a gravity lock can break it (`StaleGhost.StaleDotsCountFiveRows`).
- TetrisRules.GravityNeverLowersLevelOrScore: is proved of the corrected gravity step. As written, the gravity lock after a key that moves or turns the piece adds the value read past the score table times the level, which can lower the score.
- The key and drop operations (`TetrisRules.InputIgnoresDots`, `TetrisRules.DropsNeverLowerLevelOrScore`, and the `SoftDrop`, `HardDrop` and `HandleInput` methods) also lock with the corrected lock. They agree with the source on every state a frame reaches: a soft drop locks only a piece already at its landing row, which has no dots, and a hard drop locks on exactly the ghost footprint, whose dots the stamp overwrites.

## Findings

| source | as written | input that shows it | evidently intended | confidence | as-written member | corrected member |
|---|---|---|---|---|---|---|
| TetrisGame.cpp:620-653 | `run` calls `handleInput` and `handleGravity` before `clearAllGhostDots` (lines 980-992), so a lock sees the previous frame's ghost dots. The row scan (main.cpp:117-123) counts a `.` as filled, and the lock indexes `scores[lines]`. | Well rows 11-18 filled in columns 1-12, row 10 filled in columns 1-9, and an upright I in column 13 at row 9. One frame with no key dots column 13, rows 15-18. The key 'w' kicks the I two columns left, flat onto row 10. The next gravity step locks it and counts rows 10 and 15-18: five rows, reading `scores[5]`. | Ghost dots are only a display overlay: they never count as filled, and a lock clears at most four rows. | not executed; the board's own `clearLines` in `Board.h` is not part of this model, and the `main.cpp` scan stands in for it | TetrisRules.LockAsWritten, StaleGhost.StaleDotsCountFiveRows | TetrisRules.Lock, TetrisRules.LockClearsAtMostFourRows |
