/**
 * Scoring and difficulty of the modular game: the line-clear score table
 * scaled by the level, one level per ten cleared lines, and the gravity
 * period as a step function of the level.
 */
module Scoring {
  import opened GameStates

  /** Gravity period at level 1, in microseconds. */
  const BASE_DROP_SPEED_US: int := 500000
  /** Logic steps per gravity step. */
  const DROP_INTERVAL_TICKS: int := 5
  /** Base score for clearing 0, 1, 2, 3 or 4 lines at once. */
  const LINE_SCORES: seq<int> := [0, 100, 300, 500, 800]

  /** The level reached after clearing `linesCleared` lines in total. */
  function LevelFor(linesCleared: int): int
  {
    1 + linesCleared / 10
  }

  /** The gravity period for a level: slow up to 3, medium up to 6, fast up to 9, very fast from 10. */
  function ComputeDropSpeedUs(level: int): (us: int)
    ensures 80000 <= us <= BASE_DROP_SPEED_US
    ensures us % DROP_INTERVAL_TICKS == 0
    ensures level <= 3 <==> us == BASE_DROP_SPEED_US
  {
    if level <= 3 then 500000
    else if level <= 6 then 300000
    else if level <= 9 then 150000
    else 80000
  }

  /**
   * The table entry for `lines` cleared rows. The table has five entries;
   * for a larger count the lookup reads past its end, and `stray` stands for
   * whatever value is found there.
   */
  function LineScore(lines: nat, stray: int): int
  {
    if lines < |LINE_SCORES| then LINE_SCORES[lines] else stray
  }

  /**
   * The statistics after a lock that removed `lines` rows: nothing changes
   * without a clear; otherwise the lines are added, the score grows by the
   * table entry times the level in force before the clear (by `stray` times
   * the level past the table's end), and the level is recomputed from the
   * new line total.
   */
  function AfterLock(st: GameState, lines: nat, stray: int): (st': GameState)
    ensures st'.linesCleared == st.linesCleared + lines
    ensures lines <= 4 ==> st'.score - st.score == LINE_SCORES[lines] * st.level
    ensures lines > 4 ==> st'.score - st.score == stray * st.level
    ensures lines > 0 ==> st'.level == LevelFor(st'.linesCleared)
    ensures st'.(score := st.score, level := st.level, linesCleared := st.linesCleared) == st
  {
    if lines > 0 then
      var total := st.linesCleared + lines;
      st.(linesCleared := total, score := st.score + LineScore(lines, stray) * st.level, level := LevelFor(total))
    else
      st
  }

  /** The level and the line total agree. */
  predicate LevelTracksLines(st: GameState)
  {
    st.linesCleared >= 0 && st.level == LevelFor(st.linesCleared)
  }

  // ----- lemmas -----

  /** Locking keeps the level in step with the line total and never lowers the level; within the table it never lowers the score. */
  lemma AfterLockKeepsLevelInStep(st: GameState, lines: nat, stray: int)
    requires LevelTracksLines(st) && st.score >= 0
    ensures LevelTracksLines(AfterLock(st, lines, stray))
    ensures AfterLock(st, lines, stray).level >= st.level
    ensures lines <= 4 ==> AfterLock(st, lines, stray).score >= st.score >= 0
  {
  }

  /** A lock raises the level by one exactly when the line total crosses a multiple of ten, and never by more. */
  lemma LevelUpExactlyAtTens(st: GameState, lines: nat, stray: int)
    requires lines <= 4 && LevelTracksLines(st)
    ensures AfterLock(st, lines, stray).level <= st.level + 1
    ensures AfterLock(st, lines, stray).level == st.level + 1 <==> st.linesCleared % 10 + lines >= 10
  {
  }

  /** The gravity period never grows with the level. */
  lemma DropSpeedNonIncreasing(a: int, b: int)
    requires a <= b
    ensures ComputeDropSpeedUs(b) <= ComputeDropSpeedUs(a)
  {
  }

  /** The controller's initial period equals the level-1 period, and a fresh record satisfies the level rule. */
  lemma InitialSpeedMatchesLevelOne()
    ensures ComputeDropSpeedUs(INITIAL_STATE.level) == BASE_DROP_SPEED_US
    ensures LevelTracksLines(INITIAL_STATE)
  {
  }
}
