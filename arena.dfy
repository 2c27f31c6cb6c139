/** The fixed playfield of the shooter: its constants, the position of an
    entity, where the factories place new entities, and the box test used
    for every contact in the game. */
module Arena {

  const GAME_WIDTH: int := 480
  const GAME_HEIGHT: int := 720
  const PLAYER_SPEED: int := 8
  const BULLET_SPEED: int := 12
  const ENEMY_SPEED: int := 2
  const ENEMY_SPAWN_INTERVAL: int := 60

  /** The horizontal range the player is clamped to (-220 .. 220). */
  const PLAYER_MIN_X: int := -GAME_WIDTH / 2 + 20
  const PLAYER_MAX_X: int := GAME_WIDTH / 2 - 20

  /** A bullet whose y is above this (360) has left through the top. */
  const TOP_EDGE: int := GAME_HEIGHT / 2

  /** An enemy whose y is below this (-380) has left through the bottom. */
  const BOTTOM_EDGE: int := -GAME_HEIGHT / 2 - 20

  /** Half-extents of the collision box: empirical constants, not the
      meshes' real sizes. */
  const HIT_HALF_WIDTH: int := 30
  const HIT_HALF_HEIGHT: int := 20

  /** The (x, y) position of an entity; z is constant and left out. */
  datatype Pos = Pos(x: int, y: int)

  function Abs(n: int): nat
  {
    if n < 0 then -n else n
  }

  function Max(a: int, b: int): int
  {
    if a >= b then a else b
  }

  function Min(a: int, b: int): int
  {
    if a <= b then a else b
  }

  /** True when the two boxes overlap: both distances are strictly below
      the half-extents. */
  function IsColliding(a: Pos, b: Pos): (r: bool)
    ensures r <==> (b.x - HIT_HALF_WIDTH < a.x < b.x + HIT_HALF_WIDTH &&
                    b.y - HIT_HALF_HEIGHT < a.y < b.y + HIT_HALF_HEIGHT)
  {
    Abs(a.x - b.x) < HIT_HALF_WIDTH && Abs(a.y - b.y) < HIT_HALF_HEIGHT
  }

  lemma CollidingSymmetric(a: Pos, b: Pos)
    ensures IsColliding(a, b) == IsColliding(b, a)
  {
  }

  /** Where the player is created: centred, 40 above the bottom edge. */
  const PLAYER_START: Pos := Pos(0, -GAME_HEIGHT / 2 + 40)

  /** Where a bullet fired from (x, y) is created: 20 above it. */
  function BulletFrom(x: int, y: int): Pos
  {
    Pos(x, y + 20)
  }

  /** The horizontal coordinates a uniform draw in [0, 1) is scaled to:
      draw * (GAME_WIDTH - 60) - (GAME_WIDTH / 2 - 30), that is [-210, 210). */
  predicate IsSpawnX(x: int)
  {
    -(GAME_WIDTH / 2 - 30) <= x < (GAME_WIDTH - 60) - (GAME_WIDTH / 2 - 30)
  }

  /** An integer horizontal spawn coordinate. */
  type SpawnX = x: int | IsSpawnX(x) witness 0

  /** Where an enemy spawned at horizontal coordinate x is created:
      30 below the top edge. */
  function EnemyAt(x: SpawnX): Pos
  {
    Pos(x, GAME_HEIGHT / 2 - 30)
  }
}
