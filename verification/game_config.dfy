/** Fixed dimensions and speeds of the race-car game (game.py:15-16, 28-29, 43-57).
    The sprites are scaled to 50 x 100 pixels, so both car widths are 50 and both
    heights are 100. */
module GameConfig {

  const Width: int := 800
  const Height: int := 600

  const PlayerWidth: int := 50
  const PlayerHeight: int := 100
  const EnemyWidth: int := 50
  const EnemyHeight: int := 100

  const PlayerSpeed: int := 5
  const EnemySpeed: int := 3
  const RoadSpeed: int := 3

  /** Number of enemy cars created at every round reset. */
  const EnemyCount: nat := 3

  /** Number of scores the high-score view keeps. */
  const TopScores: nat := 5

  /** The player's row never changes: HEIGHT - player_height - 10. */
  const PlayerY: int := Height - PlayerHeight - 10

  /** WIDTH // 2 - player_width // 2; both operands are positive, so Python's
      floor division agrees with Dafny's `/`. */
  const PlayerStartX: int := Width / 2 - PlayerWidth / 2

  /** Largest x at which a car still lies fully on screen. */
  const PlayerMaxX: int := Width - PlayerWidth
  const EnemyMaxX: int := Width - EnemyWidth

  function Dist(a: int, b: int): (d: nat)
    ensures d == 0 <==> a == b
  {
    if a <= b then b - a else a - b
  }

  function Min(a: int, b: int): (m: int)
    ensures m <= a && m <= b && (m == a || m == b)
  {
    if a <= b then a else b
  }

  function Max(a: int, b: int): (m: int)
    ensures m >= a && m >= b && (m == a || m == b)
  {
    if a <= b then b else a
  }
}
