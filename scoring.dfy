/** The refactored game's score calculator: points for cleared lines and
    drops, and the level and fall speed derived from the configuration. */
module Scoring {
  import opened Wrappers
  import opened Config
  import State

  /** Python's `a // d`: the floor of the quotient, also for a negative
      divisor (Dafny's `/` is Euclidean, which differs there). */
  function FloorDiv(a: int, d: int): (q: int)
    requires d != 0
    ensures d > 0 ==> d * q <= a < d * q + d
    ensures d < 0 ==> d * q >= a > d * q + d
  {
    if d > 0 then a / d else (-a) / (-d)
  }

  /** `calculate_line_score`: the configured points for one to four lines
      times the level; any other count scores nothing. */
  function LineScore(sc: ScoringConfig, lines: int, level: int): (points: int)
    ensures lines == 1 ==> points == sc.singleLine * level
    ensures lines == 2 ==> points == sc.doubleLine * level
    ensures lines == 3 ==> points == sc.tripleLine * level
    ensures lines == 4 ==> points == sc.tetris * level
    ensures !(1 <= lines <= 4) ==> points == 0
  {
    var base :=
      if lines == 1 then sc.singleLine
      else if lines == 2 then sc.doubleLine
      else if lines == 3 then sc.tripleLine
      else if lines == 4 then sc.tetris
      else 0;
    base * level
  }

  /** With the default table more lines at once are worth more. */
  lemma DefaultLineScoreIncreasing(lines: int, level: int)
    requires 1 <= lines < 4 && level >= 1
    ensures 0 < LineScore(DefaultScoring, lines, level) < LineScore(DefaultScoring, lines + 1, level)
  {
  }

  /** One point per row of soft drop. */
  function SoftDropScore(rows: int): (points: int)
    ensures points == rows
  {
    rows
  }

  /** Two points per row of hard drop: a hard drop is always worth twice
      the soft drop over the same rows. */
  function HardDropScore(rows: int): (points: int)
    ensures points == 2 * SoftDropScore(rows)
  {
    rows * 2
  }

  /** `calculate_level`: one level per `linesPerLevel` lines, never below
      1; `None` is the division by zero of a zero `linesPerLevel`. */
  function Level(gc: GameConfig, lines: int): (level: Option<int>)
    ensures level.None? <==> gc.linesPerLevel == 0
    ensures level.Some? ==> level.value >= 1
    ensures level.Some? && gc.linesPerLevel > 0 && lines >= 0 ==>
      gc.linesPerLevel * (level.value - 1) <= lines < gc.linesPerLevel * level.value
  {
    if gc.linesPerLevel == 0 then None
    else
      var l := FloorDiv(lines, gc.linesPerLevel) + 1;
      Some(if l > 1 then l else 1)
  }

  /** `calculate_fall_speed`: the initial speed less one increment per
      level above 1, never below the minimum. */
  function FallSpeed(gc: GameConfig, level: int): (speed: int)
    ensures speed >= gc.minFallSpeed
    ensures speed >= gc.initialFallSpeed - (level - 1) * gc.fallSpeedIncrement
    ensures speed == gc.minFallSpeed || speed == gc.initialFallSpeed - (level - 1) * gc.fallSpeedIncrement
  {
    var s := gc.initialFallSpeed - (level - 1) * gc.fallSpeedIncrement;
    if s > gc.minFallSpeed then s else gc.minFallSpeed
  }

  /** With a non-negative increment the fall never slows as the level rises. */
  lemma FallSpeedNonIncreasing(gc: GameConfig, level1: int, level2: int)
    requires gc.fallSpeedIncrement >= 0 && level1 <= level2
    ensures FallSpeed(gc, level1) >= FallSpeed(gc, level2)
  {
    var d := level2 - level1;
    assert (level2 - 1) * gc.fallSpeedIncrement == (level1 - 1) * gc.fallSpeedIncrement + d * gc.fallSpeedIncrement;
    assert d * gc.fallSpeedIncrement >= 0;
  }

  /** With the default configuration the calculator agrees with the rules
      the state manager applies on its own. */
  lemma DefaultsAgreeWithStateRules(lines: int, level: int)
    ensures Level(DefaultGame, lines) == Some(State.CalculateLevel(0, lines))
    ensures FallSpeed(DefaultGame, level) == State.CalculateFallSpeed(level)
  {
  }
}
