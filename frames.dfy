/** One frame of the game as a function of the state before it and of the
    frame's inputs, and what repeated frames preserve. */
module Frames {
  import opened Arena
  import opened Shooting
  import opened Motion
  import opened Hits

  /** What the environment supplies to one frame: whether a move-left key,
      a move-right key and a shoot key are held, and the horizontal
      coordinate a spawned enemy would get. */
  datatype Input = Input(left: bool, right: bool, shoot: bool, spawnX: SpawnX)

  /** The whole game state: the player's position, the bullets and enemies
      in collection order, the score, and the flags and frame counter. */
  datatype State = State(
    player: Pos,
    bullets: seq<Pos>,
    enemies: seq<Pos>,
    score: nat,
    gameOver: bool,
    canShoot: bool,
    frameCount: nat)

  /** The state before the first frame. */
  const INITIAL: State := State(PLAYER_START, [], [], 0, false, true, 0)

  function AfterMovement(s: State, left: bool, right: bool): State
  {
    s.(player := s.player.(x := Steer(s.player.x, left, right)))
  }

  function AfterShooting(s: State, shoot: bool): State
  {
    var t := Trigger(s.canShoot, s.gameOver, shoot);
    s.(bullets := if t.fired then s.bullets + [BulletFrom(s.player.x, s.player.y)] else s.bullets,
       canShoot := t.armed)
  }

  function AfterBullets(s: State): State
  {
    s.(bullets := Advance(s.bullets))
  }

  function AfterSpawn(s: State, x: SpawnX): State
  {
    s.(enemies := Spawned(s.enemies, s.frameCount, x))
  }

  /** The enemy loop of a live frame: it ends the game exactly when an
      enemy strikes the player. */
  function AfterEnemies(s: State): State
  {
    var sweep := SweepEnemies(s.enemies, s.player);
    s.(enemies := sweep.enemies, gameOver := sweep.struck)
  }

  function AfterHits(s: State): State
  {
    var r := Resolve(s.bullets, s.enemies);
    s.(bullets := r.bullets, enemies := r.enemies, score := s.score + r.hits)
  }

  /** A live frame up to its enemy loop: count the frame, steer, shoot,
      move the bullets and maybe spawn. */
  function BeforeEnemies(s: State, input: Input): State
  {
    var ticked := s.(frameCount := s.frameCount + 1);
    var moved := AfterMovement(ticked, input.left, input.right);
    AfterSpawn(AfterBullets(AfterShooting(moved, input.shoot)), input.spawnX)
  }

  /** One frame: nothing at all once the game is over; otherwise count the
      frame, steer, shoot, move the bullets, maybe spawn, move the enemies,
      and, unless an enemy has just struck the player, resolve hits. */
  function Frame(s: State, input: Input): State
  {
    if s.gameOver then s
    else
      var swept := AfterEnemies(BeforeEnemies(s, input));
      if swept.gameOver then swept else AfterHits(swept)
  }

  /** A live frame up to its enemy loop is its stages in order. */
  lemma BeforeEnemiesStages(s: State, input: Input, ticked: State, before: State)
    requires ticked == s.(frameCount := s.frameCount + 1)
    requires before == AfterSpawn(AfterBullets(AfterShooting(AfterMovement(ticked, input.left, input.right), input.shoot)), input.spawnX)
    ensures before == BeforeEnemies(s, input)
  {
  }

  /** A live frame: the enemy loop after the first stages, and then,
      unless an enemy struck the player, resolution. */
  lemma LiveFrameStages(s: State, input: Input, before: State)
    requires !s.gameOver && before == BeforeEnemies(s, input)
    ensures !AfterEnemies(before).gameOver ==> Frame(s, input) == AfterHits(AfterEnemies(before))
    ensures AfterEnemies(before).gameOver ==> Frame(s, input) == AfterEnemies(before)
  {
  }

  /** The state after the given frames, one after the other. */
  function Run(s: State, inputs: seq<Input>): State
    decreases |inputs|
  {
    if inputs == [] then s else Run(Frame(s, inputs[0]), inputs[1..])
  }

  /** What holds between frames: the player is inside its clamp range at
      its fixed height, no bullet is past the top edge and no enemy past
      the bottom one. */
  predicate Playable(s: State)
  {
    && PLAYER_MIN_X <= s.player.x <= PLAYER_MAX_X
    && s.player.y == PLAYER_START.y
    && (forall b :: b in s.bullets ==> b.y <= TOP_EDGE)
    && (forall e :: e in s.enemies ==> e.y >= BOTTOM_EDGE)
  }

  /** A frame of a finished game changes nothing; a frame of a live game
      counts one frame; no frame lowers the score or revives a finished
      game. */
  lemma FrameCounts(s: State, input: Input)
    ensures var t := Frame(s, input);
            && (s.gameOver ==> t == s)
            && (!s.gameOver ==> t.frameCount == s.frameCount + 1)
            && (s.gameOver ==> t.gameOver)
            && s.score <= t.score
  {
  }

  /** The shooting stage appends one bullet 20 above the player exactly
      when a shoot key is held, the latch is armed and the game is live;
      afterwards the latch is armed exactly when no shoot key is held or
      it was armed in a finished game. */
  lemma ShootingEffect(s: State, shoot: bool)
    ensures var t := AfterShooting(s, shoot);
            var fired := shoot && s.canShoot && !s.gameOver;
            && (fired ==> t.bullets == s.bullets + [Pos(s.player.x, s.player.y + 20)])
            && (!fired ==> t.bullets == s.bullets)
            && t.canShoot == (!shoot || (s.canShoot && s.gameOver))
            && t.player == s.player && t.enemies == s.enemies && t.score == s.score
  {
  }

  /** What BeforeEnemies does: one more frame counted, the player
      steered, at most one bullet fired, the bullets advanced and at most
      one enemy spawned; the score and game-over flag are untouched. */
  lemma BeforeEnemiesEffect(s: State, input: Input)
    ensures var t := BeforeEnemies(s, input);
            && t.frameCount == s.frameCount + 1
            && t.player == Pos(Steer(s.player.x, input.left, input.right), s.player.y)
            && t.score == s.score && t.gameOver == s.gameOver
            && t.enemies == Spawned(s.enemies, s.frameCount + 1, input.spawnX)
            && t.canShoot == Trigger(s.canShoot, s.gameOver, input.shoot).armed
            && (Trigger(s.canShoot, s.gameOver, input.shoot).fired ==>
                  t.bullets == Advance(s.bullets + [BulletFrom(t.player.x, t.player.y)]))
            && (!Trigger(s.canShoot, s.gameOver, input.shoot).fired ==>
                  t.bullets == Advance(s.bullets))
  {
  }

  /** When an enemy strikes the player the frame ends the game without
      resolving any hit: score and bullets stay as the enemy loop found
      them. Otherwise the score rises by one per bullet removed in the
      resolution, and the enemies shrink by the same count. */
  lemma FrameScoring(s: State, input: Input)
    requires !s.gameOver
    ensures var before := BeforeEnemies(s, input);
            var t := Frame(s, input);
            && (t.gameOver <==> exists i :: 0 <= i < |before.enemies| && IsColliding(Fall(before.enemies[i]), before.player))
            && (t.gameOver ==> t.score == s.score && t.bullets == before.bullets)
            && (!t.gameOver ==>
                  && t.score - s.score == |before.bullets| - |t.bullets|
                  && t.score - s.score == |Descend(before.enemies)| - |t.enemies|)
  {
    var before := BeforeEnemies(s, input);
    assert !before.gameOver && before.score == s.score;
    var sweep := SweepEnemies(before.enemies, before.player);
    assert AfterEnemies(before).gameOver == sweep.struck;
    ResolveShrinks(before.bullets, sweep.enemies);
  }

  /** A frame keeps a playable state playable, including the frame in
      which an enemy strikes the player. */
  lemma FramePreservesPlayable(s: State, input: Input)
    requires Playable(s)
    ensures Playable(Frame(s, input))
  {
    if !s.gameOver {
      var before := BeforeEnemies(s, input);
      BeforeEnemiesPlayable(s, input);
      var swept := AfterEnemies(before);
      SweepKeepsOnScreen(before.enemies, before.player);
      assert Playable(swept);
      if !swept.gameOver {
        HitsKeepPlayable(swept);
      }
    }
  }

  lemma BeforeEnemiesPlayable(s: State, input: Input)
    requires Playable(s)
    ensures Playable(BeforeEnemies(s, input))
  {
    var before := BeforeEnemies(s, input);
    BeforeEnemiesEffect(s, input);
    assert forall i :: 0 <= i < |before.bullets| ==> before.bullets[i].y <= TOP_EDGE;
    forall b | b in before.bullets
      ensures b.y <= TOP_EDGE
    {
      var i :| 0 <= i < |before.bullets| && before.bullets[i] == b;
    }
    forall e | e in before.enemies
      ensures e.y >= BOTTOM_EDGE
    {
      if e !in s.enemies {
        assert before.enemies[..|s.enemies|] == s.enemies;
        assert e == before.enemies[|s.enemies|];
      }
    }
  }

  /** Resolution only removes entities, so it keeps a state playable. */
  lemma HitsKeepPlayable(s: State)
    requires Playable(s)
    ensures Playable(AfterHits(s))
  {
    var r := Resolve(s.bullets, s.enemies);
    ResolveShrinks(s.bullets, s.enemies);
    forall b | b in r.bullets
      ensures b.y <= TOP_EDGE
    {
      assert b in multiset(r.bullets);
      assert b in multiset(s.bullets);
    }
    forall e | e in r.enemies
      ensures e.y >= BOTTOM_EDGE
    {
      assert e in multiset(r.enemies);
      assert e in multiset(s.enemies);
    }
  }

  /** The enemy loop leaves no enemy past the bottom edge when none was
      before and the player is at its fixed height: the enemies it did not
      reach are unmoved, the striking one is level with the player, and
      the rest have descended. */
  lemma SweepKeepsOnScreen(es: seq<Pos>, p: Pos)
    requires p.y == PLAYER_START.y
    requires forall e :: e in es ==> e.y >= BOTTOM_EDGE
    ensures forall e :: e in SweepEnemies(es, p).enemies ==> e.y >= BOTTOM_EDGE
  {
    var k := LastStrike(es, p);
    if k >= 0 {
      var tail := Descend(es[k + 1..]);
      assert SweepEnemies(es, p).enemies == es[..k] + [Fall(es[k])] + tail;
      forall e | e in SweepEnemies(es, p).enemies
        ensures e.y >= BOTTOM_EDGE
      {
        if e in es[..k] {
          assert e in es;
        } else if e !in tail {
          assert e == Fall(es[k]);
        }
      }
    }
  }

  lemma InitialPlayable()
    ensures Playable(INITIAL)
  {
  }

  /** Every state reached from a playable one is playable. */
  lemma {:induction false} RunPreservesPlayable(s: State, inputs: seq<Input>)
    requires Playable(s)
    ensures Playable(Run(s, inputs))
    decreases |inputs|
  {
    if inputs != [] {
      FramePreservesPlayable(s, inputs[0]);
      RunPreservesPlayable(Frame(s, inputs[0]), inputs[1..]);
    }
  }

  /** The score never decreases over any run of frames. */
  lemma {:induction false} RunNeverLowersScore(s: State, inputs: seq<Input>)
    ensures s.score <= Run(s, inputs).score
    decreases |inputs|
  {
    if inputs != [] {
      FrameCounts(s, inputs[0]);
      RunNeverLowersScore(Frame(s, inputs[0]), inputs[1..]);
    }
  }

  /** Once the game is over, no further frames change anything. */
  lemma {:induction false} RunAfterGameOver(s: State, inputs: seq<Input>)
    requires s.gameOver
    ensures Run(s, inputs) == s
    decreases |inputs|
  {
    if inputs != [] {
      RunAfterGameOver(Frame(s, inputs[0]), inputs[1..]);
    }
  }

  /** Running two sequences of frames one after the other is running
      their concatenation. */
  lemma {:induction false} RunConcat(s: State, a: seq<Input>, b: seq<Input>)
    ensures Run(s, a + b) == Run(Run(s, a), b)
    decreases |a|
  {
    if a == [] {
      assert a + b == b;
    } else {
      assert (a + b)[1..] == a[1..] + b;
      RunConcat(Frame(s, a[0]), a[1..], b);
    }
  }

  /** Once a run has ended the game, further frames change nothing. */
  lemma GameOverIsFinal(s: State, a: seq<Input>, b: seq<Input>)
    requires Run(s, a).gameOver
    ensures Run(s, a + b) == Run(s, a)
  {
    RunConcat(s, a, b);
    RunAfterGameOver(Run(s, a), b);
  }

  /** Whether a shoot key is held, frame by frame. */
  function Shots(inputs: seq<Input>): (r: seq<bool>)
    ensures |r| == |inputs|
    ensures forall i :: 0 <= i < |inputs| ==> r[i] == inputs[i].shoot
    decreases |inputs|
  {
    if inputs == [] then [] else [inputs[0].shoot] + Shots(inputs[1..])
  }

  /** A finished game stays finished over any run of frames. */
  lemma RunStaysOver(s: State, inputs: seq<Input>)
    ensures s.gameOver ==> Run(s, inputs).gameOver
  {
    if s.gameOver {
      RunAfterGameOver(s, inputs);
    }
  }

  /** The number of frames of a run whose shooting stage appends a bullet,
      that is, in which the latch fires (see ShootingEffect). */
  function FiredCount(s: State, inputs: seq<Input>): nat
    decreases |inputs|
  {
    if inputs == [] then 0
    else
      (if Trigger(s.canShoot, s.gameOver, inputs[0].shoot).fired then 1 else 0)
        + FiredCount(Frame(s, inputs[0]), inputs[1..])
  }

  /** Over a run of frames that leaves the game live, the game fires as
      many bullets as the latch alone does over the run's shoot keys, and
      the latch ends in the same state. */
  lemma {:induction false} RunLatch(s: State, inputs: seq<Input>)
    requires !Run(s, inputs).gameOver
    ensures FiredCount(s, inputs) == Volley(s.canShoot, Shots(inputs))
    ensures Run(s, inputs).canShoot == ArmedAfter(s.canShoot, Shots(inputs))
    decreases |inputs|
  {
    if inputs != [] {
      RunStaysOver(s, inputs);
      var t := Frame(s, inputs[0]);
      BeforeEnemiesEffect(s, inputs[0]);
      assert t.canShoot == Trigger(s.canShoot, false, inputs[0].shoot).armed;
      assert Shots(inputs)[1..] == Shots(inputs[1..]);
      RunLatch(t, inputs[1..]);
    }
  }
}
