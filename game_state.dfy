/**
 * The statistics-and-flags record of the modular game. The controller holds
 * it by value and assigns its fields, so it is a datatype updated with
 * `.(field := value)`.
 */
module GameStates {

  datatype GameState = GameState(
    running: bool,        // the round's loop is active
    quitByUser: bool,     // the player pressed 'q'
    paused: bool,
    ghostEnabled: bool,   // the landing projection is shown
    score: int,
    level: int,
    linesCleared: int,
    highScores: seq<int>) // the scores loaded for the game-over screen

  /** A freshly constructed record. */
  const INITIAL_STATE: GameState := GameState(true, false, false, true, 0, 1, 0, [])
}
