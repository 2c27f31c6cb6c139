/** The game object: the game's module-level state, updated in
    place frame by frame. Each method is proved to perform the matching
    stage of the frame function. */
module Shooter {
  import opened Arena
  import opened Motion
  import opened Hits
  import opened Frames

  class Game {
    var playerX: int
    var playerY: int
    var bullets: seq<Pos>
    var enemies: seq<Pos>
    var score: nat
    var gameOver: bool
    var canShoot: bool
    var frameCount: nat

    /** The game's fields as a state value. */
    function Snapshot(): State
      reads this
    {
      State(Pos(playerX, playerY), bullets, enemies, score, gameOver, canShoot, frameCount)
    }

    /** The module-level initial values together with the player that the
        start-up creates. */
    constructor ()
      ensures Snapshot() == INITIAL
    {
      playerX, playerY := PLAYER_START.x, PLAYER_START.y;
      bullets, enemies := [], [];
      score := 0;
      gameOver := false;
      canShoot := true;
      frameCount := 0;
    }

    /** The shoot latch: fire one bullet from just above the player when a
        shoot key is held, the latch is armed and the game is live; re-arm
        when no shoot key is held. */
    method HandleShooting(shoot: bool)
      modifies this`bullets, this`canShoot
      ensures Snapshot() == AfterShooting(old(Snapshot()), shoot)
    {
      if shoot && canShoot && !gameOver {
        bullets := bullets + [BulletFrom(playerX, playerY)];
        canShoot := false;
      }
      if !shoot {
        canShoot := true;
      }
    }

    /** The bullet loop: from the last bullet down, raise it and splice it
        out once it is past the top edge. */
    method MoveBullets()
      modifies this`bullets
      ensures Snapshot() == AfterBullets(old(Snapshot()))
    {
      ghost var start := bullets;
      var i := |bullets| - 1;
      while i >= 0
        invariant -1 <= i < |start|
        invariant bullets == start[..i + 1] + Advance(start[i + 1..])
      {
        AdvanceStep(start, i, bullets);
        bullets := bullets[i := Pos(bullets[i].x, bullets[i].y + BULLET_SPEED)];
        if bullets[i].y > TOP_EDGE {
          bullets := bullets[..i] + bullets[i + 1..];
        }
        i := i - 1;
      }
      assert start[0..] == start;
    }

    /** The enemy loop of a live frame: from the last enemy down, lower it;
        if it now touches the player end the game and stop at once,
        otherwise splice it out once it is past the bottom edge. The loop
        works on a copy of the collection that is stored back when it
        stops. */
    method MoveEnemies()
      requires !gameOver
      modifies this`enemies, this`gameOver
      ensures Snapshot() == AfterEnemies(old(Snapshot()))
    {
      var es := enemies;
      var player := Pos(playerX, playerY);
      var i := |es| - 1;
      while i >= 0
        invariant -1 <= i < |old(enemies)|
        invariant es == old(enemies)[..i + 1] + Descend(old(enemies)[i + 1..])
        invariant LastStrike(old(enemies), player) <= i
        invariant Snapshot() == old(Snapshot())
      {
        DescendStep(old(enemies), i, es);
        StrikeScan(old(enemies), player, i);
        es := es[i := Pos(es[i].x, es[i].y - ENEMY_SPEED)];
        if IsColliding(es[i], player) {
          SweepStopsAt(old(enemies), player, i, es);
          enemies := es;
          EndGame();
          return;
        }
        if es[i].y < BOTTOM_EDGE {
          es := es[..i] + es[i + 1..];
        }
        i := i - 1;
      }
      assert old(enemies)[0..] == old(enemies);
      SweepRunsThrough(old(enemies), player);
      enemies := es;
    }

    /** The bullet-enemy loop: from the last bullet down, scan the enemies
        from the last down; at the first one the bullet touches, splice out
        both, count the hit and go on with the next bullet. */
    method ResolveHits()
      modifies this`bullets, this`enemies, this`score
      ensures Snapshot() == AfterHits(old(Snapshot()))
    {
      ghost var whole := Resolve(bullets, enemies);
      ghost var hits: nat := 0;
      var i := |bullets| - 1;
      while i >= 0
        invariant -1 <= i < |bullets|
        invariant score == old(score) + hits
        invariant ResolveFrom(bullets, enemies, i, hits) == whole
      {
        ghost var bs, es := bullets, enemies;
        var j := |enemies| - 1;
        while j >= 0
          invariant -1 <= j < |enemies|
          invariant bullets == bs && enemies == es && score == old(score) + hits
          invariant LastHit(bs[i], es) <= j
        {
          if IsColliding(bullets[i], enemies[j]) {
            assert LastHit(bs[i], es) == j;
            bullets := bullets[..i] + bullets[i + 1..];
            enemies := enemies[..j] + enemies[j + 1..];
            score := score + 1;
            hits := hits + 1;
            break;
          }
          j := j - 1;
        }
        i := i - 1;
      }
    }

    /** Ending the game sets the terminal flag. */
    method EndGame()
      modifies this`gameOver
      ensures Snapshot() == old(Snapshot()).(gameOver := true)
    {
      gameOver := true;
    }

    /** One animation frame: nothing once the game is over; otherwise count
        the frame, steer, shoot, move the bullets, maybe spawn, move the
        enemies and, unless one struck the player, resolve hits. */
    method Animate(input: Input)
      modifies this
      ensures Snapshot() == Frame(old(Snapshot()), input)
    {
      if gameOver {
        return;
      }
      ghost var start := Snapshot();
      ghost var ticked := start.(frameCount := start.frameCount + 1);
      frameCount := frameCount + 1;

      if input.left {
        playerX := Max(playerX - PLAYER_SPEED, PLAYER_MIN_X);
      }
      if input.right {
        playerX := Min(playerX + PLAYER_SPEED, PLAYER_MAX_X);
      }
      ghost var moved := AfterMovement(ticked, input.left, input.right);
      assert playerX == moved.player.x;
      assert Snapshot() == moved;

      HandleShooting(input.shoot);
      MoveBullets();
      ghost var advanced := AfterBullets(AfterShooting(moved, input.shoot));

      if frameCount % ENEMY_SPAWN_INTERVAL == 0 {
        enemies := enemies + [EnemyAt(input.spawnX)];
      }
      ghost var before := AfterSpawn(advanced, input.spawnX);
      assert Snapshot() == before;

      BeforeEnemiesStages(start, input, ticked, before);
      LiveFrameStages(start, input, before);

      MoveEnemies();
      if gameOver {
        return;
      }
      ResolveHits();
    }
  }
}
