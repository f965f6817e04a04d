/** The configuration records the game reads its rules from, with the
    values the game uses when the configuration file leaves them out. */
module Config {

  /** Board size, fall timing, lock delay and level pace. */
  datatype GameConfig = GameConfig(
    boardWidth: int,
    boardHeight: int,
    initialFallSpeed: int,
    fallSpeedIncrement: int,
    minFallSpeed: int,
    lockDelay: int,
    maxMoveResets: int,
    linesPerLevel: int)

  /** Base points for clearing one, two, three and four lines at once. */
  datatype ScoringConfig = ScoringConfig(
    singleLine: int,
    doubleLine: int,
    tripleLine: int,
    tetris: int)

  const DefaultGame := GameConfig(10, 20, 500, 50, 50, 500, 15, 10)

  const DefaultScoring := ScoringConfig(40, 100, 300, 1200)

  /** Colour the display configuration gives the ghost piece by default. */
  const DefaultGhostColor := 8
}
