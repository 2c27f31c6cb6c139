# Space Shooter frame update in Dafny

This project models the game logic of a small browser space shooter (`main.js`).
The player is a ship at the bottom of a 480 x 720 playfield. It moves left and
right and fires bullets upwards. Enemies spawn at the top every 60 frames and
fall. A bullet that touches an enemy destroys it and scores a point. An enemy
that touches the player ends the game.

All of this happens in `animate()`, one call per animation frame, which uses
module-level state: the player, the bullet and enemy arrays, the score, the
`gameOver` and `canShoot` flags and the frame counter. A frame does, in order:

1. returns at once if the game is over;
2. counts the frame;
3. steers the player with clamping;
4. runs the edge-triggered shoot latch;
5. runs the reverse bullet loop, which raises each bullet and drops those past
   the top;
6. spawns an enemy every 60th frame;
7. runs the reverse enemy loop, which lowers each enemy, ends the game and
   leaves the frame on the first contact with the player, and drops enemies
   past the bottom;
8. runs the nested reverse bullet-enemy loop, which removes each hitting
   bullet and the last enemy it touches, adds one point, and moves on to the
   next bullet.

The project works on two levels:

- `game.dfy` (module `Shooter`) has class `Game`. Its fields are the
  module-level state, and its methods are the source's loops, updating the
  fields in place.
- `frames.dfy` (module `Frames`) describes one frame as a function
  `Frame(State, Input): State`, built from one function per stage.
  `Game.Animate` is proved to perform exactly `Frame`.

The properties of the game are proved about `Frame` and about the stage
functions:

- the latch fires one bullet per press;
- bullets and enemies keep their order, and each moves by exactly its speed;
- the enemy loop stops at the enemy that strikes the player;
- after resolution no surviving bullet touches a surviving enemy;
- the score counts exactly the removed pairs and never decreases;
- the playfield invariant holds after every frame;
- game over is final.

Files:

- `arena.dfy`: constants, positions, the collision box and the factories'
  spawn positions.
- `shooting.dfy`: the shoot latch and what it does over runs of frames.
- `motion.dfy`: steering, the bullet loop, spawning and the enemy loop, as
  specification functions.
- `hits.dfy`: bullet-enemy resolution as a specification function.
- `frames.dfy`: one frame, runs of frames, the between-frames invariant.
- `game.dfy`: the imperative game object.

## Model

| member | source | states |
|---|---|---|
| Arena.IsColliding | main.js:77-86 | Two entities collide exactly when each coordinate of one lies strictly inside the other's box: less than 30 apart horizontally and less than 20 apart vertically. |
| Arena.CollidingSymmetric | main.js:82-85 | Collision does not depend on the order of its two arguments. |
| Shooting.Trigger | main.js:66-74 | The latch fires exactly when a shoot key is held, the latch is armed and the game is live. Firing disarms it. No key held re-arms it. It is armed while the key is held only if it was armed before. |
| Shooting.HoldFiresAtMostOnce | main.js:66-74 | Holding a shoot key for any number of live frames fires once if the latch was armed and never otherwise, and leaves it disarmed. |
| Shooting.ReleaseRearms | main.js:71-73 | Frames without a shoot key fire nothing, and one such frame re-arms the latch. |
| Shooting.VolleyConcat | main.js:66-74 | Bullets fired over two consecutive runs of frames add up, and the latch state passes from the first run to the second. |
| Shooting.OneBulletPerPress | main.js:66-74 | Any sequence of press-and-release cycles fires exactly one bullet per cycle, however long each phase lasts, and ends armed. |
| Motion.Steer | main.js:95-100 | Left alone moves the player 8 left, or to -220 when x < -212. Right alone moves it 8 right, or to 220 when x > 212. Both keys together leave a player at -212 <= x <= 220 in place, move one left of -212 to -212, and one right of 220 to 220. With neither key it does not move. From inside the clamp range the player stays inside it and moves at most 8. |
| Motion.Advance | main.js:105-111 | The bullet loop never adds bullets and leaves none past the top edge. |
| Motion.AdvanceCount | main.js:105-111 | A bullet is at position b after the loop exactly as many times as one was 12 below b before it, when b is not past the top edge; none is past the top. |
| Motion.AdvanceConcat | main.js:105-111 | The bullet loop keeps the bullets' order: advancing a concatenation concatenates the advanced parts. |
| Motion.AdvanceStep | main.js:105-111 | One iteration at index i, which raises bullet i and splices it out when it is past the top, extends the advanced suffix from i+1 to i. |
| Motion.Spawned | main.js:114-116 | The spawn check keeps the enemies as a prefix. It adds exactly one enemy exactly when the frame counter is a multiple of 60, placed at the drawn x, 30 below the top edge. |
| Motion.Descend | main.js:119-131 | Without a strike, the enemy loop never adds enemies and leaves none past the bottom edge. |
| Motion.DescendCount | main.js:119-131 | An enemy is at position e after a full descent exactly as many times as one was 2 above e before it, when e is not past the bottom edge. |
| Motion.DescendConcat | main.js:119-131 | The enemy loop keeps the enemies' order. |
| Motion.DescendStep | main.js:119-131 | One iteration at index i, which lowers enemy i and splices it out when it is past the bottom, extends the descended suffix from i+1 to i. |
| Motion.LastStrike | main.js:119-125 | The index the enemy loop stops at: an enemy that strikes the player once lowered, with none after it striking; -1 when none strikes. |
| Motion.StrikeScan | main.js:119-125 | At step i of the reverse scan, when no later enemy strikes, enemy i is the stopping enemy exactly when it strikes. |
| Motion.SweepOutcome | main.js:119-131 | The enemy loop ends the game exactly when some enemy, once lowered, touches the player. With no strike every enemy descends. With a strike at k: the enemies before k are unmoved, enemy k has fallen, and the enemies after k, which the loop visited first, have descended with off-bottom ones dropped; no enemy after k strikes. |
| Motion.SweepStopsAt | main.js:122-125 | Leaving the loop at the stopping enemy k yields the enemies lowered so far. |
| Motion.SweepRunsThrough | main.js:119-131 | With no striking enemy the loop is a full descent and does not end the game. |
| Hits.LastHit | main.js:135-144 | The enemy the inner loop stops at: the last enemy the bullet touches, with none after it touched; -1 when it touches none. |
| Hits.ResolveFromCounts | main.js:134-146 | From any cursor, each hit removes exactly one bullet and exactly one enemy. |
| Hits.ResolveFromDraws | main.js:134-146 | From any cursor, the remaining bullets and enemies are sub-multisets of those before. |
| Hits.ResolveShrinks | main.js:134-146 | Resolution shortens both collections by exactly the number of hits, and what remains is drawn from what there was. |
| Hits.ResolveFromLeavesNoContact | main.js:134-146 | When the bullets after the cursor touch no enemy, no bullet left by resolution touches any enemy left by it. |
| Hits.ResolveLeavesNoContact | main.js:134-146 | After resolution no surviving bullet touches a surviving enemy. |
| Hits.ResolveFromKeepsUntouched | main.js:134-146 | From any cursor, a bullet that touches no enemy keeps all its copies through resolution. |
| Hits.ResolveFromKeepsMissed | main.js:134-146 | From any cursor, an enemy that no bullet touches keeps all its copies through resolution. |
| Hits.ResolveRemovesOnlyColliding | main.js:134-146 | Resolution removes only colliding entities: a bullet touching no enemy, and an enemy touched by no bullet, keep exactly their number of copies. |
| Frames.RunStaysOver | main.js:90 | A finished game is still finished after any run of frames. |
| Frames.FrameCounts | main.js:89-92 | A frame of a finished game changes nothing. A live frame counts exactly one frame. No frame lowers the score or revives a finished game. |
| Frames.ShootingEffect | main.js:66-74 | The shooting stage appends exactly one bullet, 20 above the player, exactly when the latch fires, and nothing otherwise. Afterwards the latch is armed exactly when no shoot key is held, or it was armed in a finished game. |
| Frames.BeforeEnemiesEffect | main.js:92-116 | Before its enemy loop, a live frame counts one frame, steers the player and fires at most once from the steered position. It advances the bullets, including a new one, and spawns according to the incremented counter. Score and game-over are unchanged. |
| Frames.FrameScoring | main.js:119-146 | A live frame ends the game exactly when some enemy, once lowered, touches the player. Then score and bullets are as before the enemy loop. Otherwise the score rises by exactly the number of bullets removed, which equals the number of descended enemies removed. |
| Frames.FramePreservesPlayable | main.js:89-149 | Every frame keeps the player in its clamp range at its fixed height, no bullet past the top edge and no enemy past the bottom edge. |
| Frames.BeforeEnemiesPlayable | main.js:92-116 | The stages before the enemy loop keep that invariant. |
| Frames.SweepKeepsOnScreen | main.js:119-131 | The enemy loop, including a loop stopped by a strike, leaves no enemy past the bottom edge. |
| Frames.HitsKeepPlayable | main.js:134-146 | Resolution keeps the invariant, because it only removes entities. |
| Frames.InitialPlayable | main.js:21-22 | The initial state satisfies the invariant. |
| Frames.RunPreservesPlayable | main.js:89-149 | Every state reached from a playable state by any run of frames is playable. |
| Frames.RunNeverLowersScore | main.js:141 | The score never decreases over any run of frames. |
| Frames.RunAfterGameOver | main.js:90 | Once the game is over, further frames change nothing. |
| Frames.RunConcat | main.js:89-91 | Running two sequences of frames one after the other is running their concatenation. |
| Frames.GameOverIsFinal | main.js:151-154 | Once some run of frames has ended the game, any further frames leave the state as that run left it. |
| Frames.RunLatch | main.js:66-74 | Over any run of frames that leaves the game live, the number of frames that append a bullet equals the bullets the latch alone fires over the run's shoot keys, and the final latch state is the one it reaches; so the press-cycle lemmas, such as one bullet per press, hold of the game. |
| Shooter.Game.constructor | main.js:21-22 | The game starts at the module-level initial values, with the player created centred, 40 above the bottom edge, and the latch armed. |
| Shooter.Game.HandleShooting | main.js:66-74 | The method performs the shooting stage on the game's fields, changing only the bullets and the latch. |
| Shooter.Game.MoveBullets | main.js:105-111 | The reverse splicing loop leaves exactly the advanced bullets, changing nothing else. |
| Shooter.Game.MoveEnemies | main.js:119-131 | In a live game the reverse loop leaves exactly the enemies and game-over flag of the enemy loop's outcome, changing nothing else. |
| Shooter.Game.ResolveHits | main.js:134-146 | The nested reverse loops leave exactly the resolved bullets and enemies, and raise the score by the number of hits. |
| Shooter.Game.EndGame | main.js:151-154 | Ending the game sets the game-over flag and changes nothing else. |
| Shooter.Game.Animate | main.js:89-149 | One call updates the game's fields exactly as one frame of the frame function does. |

## Left out

- Rendering is left out: the Three.js scene, meshes, camera, renderer and `scene.remove` calls. Entities are reduced to their (x, y) positions, and z is constant.
- The DOM is left out. Writing the score text and showing the game-over message have no effect on the game state.
- `requestAnimationFrame` and the keyboard listeners are left out. Each frame takes an `Input`: whether a left key (ArrowLeft or KeyA), a right key (ArrowRight or KeyD) and a shoot key (Space or ArrowUp) is held. The OR of each key pair is already folded into one boolean.
- `Math.random` is left out. The spawn coordinate it yields comes in as `Input.spawnX`, an integer in [-210, 210).
- Arena.EnemyAt: positions are integers, while the source's spawn x is a real number in that range; the model covers the spawn coordinates that are integers. JavaScript's floating-point numbers are not modelled. Every other coordinate the game computes is an integer, starting from integers.
- Arena.IsColliding: the optional coordinate arguments of `isColliding` (main.js:77-81) are not modelled, because no call passes them.
- `init` (main.js:157-161) is modelled by the constructor and the first `Animate` call. Setting the camera is left out.
- Shooter.Game.MoveEnemies works on a local copy of the enemy sequence and stores it back when it leaves the loop. The source splices the shared array in place. Nothing else reads the array during the loop, so the resulting state is the same.
- Shooter.Game.MoveEnemies requires a live game, because `animate` has already returned for a finished one. Frames.AfterEnemies likewise describes only the enemy loop of a live frame.
- Hits.ResolveShrinks and Hits.ResolveRemovesOnlyColliding state what resolution leaves as multisets, not the order of the survivors. Order is kept, since only splices happen, but no lemma states it. Which of several touching bullets claims a shared enemy is fixed by Hits.Resolve but not restated as a lemma.
