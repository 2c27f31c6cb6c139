/** What one frame does to positions: the player's clamped steering, the
    bullets rising and leaving through the top, enemies spawning, and
    enemies falling, striking the player or leaving through the bottom. */
module Motion {
  import opened Arena

  /** The player's new x: left is applied first (not below PLAYER_MIN_X),
      then right (not above PLAYER_MAX_X). */
  function Steer(x: int, left: bool, right: bool): (r: int)
    ensures PLAYER_MIN_X <= x <= PLAYER_MAX_X ==>
              PLAYER_MIN_X <= r <= PLAYER_MAX_X && x - PLAYER_SPEED <= r <= x + PLAYER_SPEED
    ensures !left && !right ==> r == x
    ensures left && !right && PLAYER_MIN_X <= x ==> r <= x
    ensures right && !left && x <= PLAYER_MAX_X ==> x <= r
    ensures left && !right && PLAYER_MIN_X + PLAYER_SPEED <= x ==> r == x - PLAYER_SPEED
    ensures left && !right && x < PLAYER_MIN_X + PLAYER_SPEED ==> r == PLAYER_MIN_X
    ensures right && !left && x <= PLAYER_MAX_X - PLAYER_SPEED ==> r == x + PLAYER_SPEED
    ensures right && !left && PLAYER_MAX_X - PLAYER_SPEED < x ==> r == PLAYER_MAX_X
    ensures left && right && PLAYER_MIN_X + PLAYER_SPEED <= x <= PLAYER_MAX_X ==> r == x
    ensures left && right && x < PLAYER_MIN_X + PLAYER_SPEED ==> r == PLAYER_MIN_X + PLAYER_SPEED
    ensures left && right && PLAYER_MAX_X < x ==> r == PLAYER_MAX_X
  {
    var afterLeft := if left then Max(x - PLAYER_SPEED, PLAYER_MIN_X) else x;
    if right then Min(afterLeft + PLAYER_SPEED, PLAYER_MAX_X) else afterLeft
  }

  // ---------------------------------------------------------------- bullets

  function Rise(b: Pos): Pos
  {
    Pos(b.x, b.y + BULLET_SPEED)
  }

  /** The bullets after one frame: each rises by BULLET_SPEED, and those
      past the top edge are dropped. */
  function Advance(bs: seq<Pos>): (r: seq<Pos>)
    ensures |r| <= |bs|
    ensures forall i :: 0 <= i < |r| ==> r[i].y <= TOP_EDGE
    decreases |bs|
  {
    if bs == [] then []
    else (if Rise(bs[0]).y > TOP_EDGE then [] else [Rise(bs[0])]) + Advance(bs[1..])
  }

  /** Advancing keeps the bullets' order: the survivors of an earlier part
      of the collection come before those of a later part. */
  lemma {:induction false} AdvanceConcat(a: seq<Pos>, b: seq<Pos>)
    ensures Advance(a + b) == Advance(a) + Advance(b)
    decreases |a|
  {
    if a == [] {
      assert a + b == b;
    } else {
      assert (a + b)[0] == a[0];
      assert (a + b)[1..] == a[1..] + b;
      AdvanceConcat(a[1..], b);
    }
  }

  /** Replacing the element between p and t, and then splicing it out. */
  lemma ReplaceMiddle(p: seq<Pos>, x: Pos, y: Pos, t: seq<Pos>)
    ensures (p + [x] + t)[|p| := y] == p + [y] + t
    ensures var u := p + [y] + t; u[..|p|] + u[|p| + 1..] == p + t
  {
    var u := p + [y] + t;
    assert u[..|p|] == p;
    assert u[|p| + 1..] == t;
  }

  /** One step of the reverse bullet loop: when bullets i + 1 onwards of
      the original collection have been advanced, raising bullet i (and
      splicing it out if it is past the top edge) advances bullets i
      onwards. */
  lemma AdvanceStep(bs: seq<Pos>, i: nat, cur: seq<Pos>)
    requires i < |bs| && cur == bs[..i + 1] + Advance(bs[i + 1..])
    ensures i < |cur| && cur[i] == bs[i]
    ensures var raised := cur[i := Rise(cur[i])];
            && (raised[i].y > TOP_EDGE ==> raised[..i] + raised[i + 1..] == bs[..i] + Advance(bs[i..]))
            && (raised[i].y <= TOP_EDGE ==> raised == bs[..i] + Advance(bs[i..]))
  {
    var before, tail := bs[..i], Advance(bs[i + 1..]);
    assert |before| == i;
    assert bs[..i + 1] == before + [bs[i]];
    assert cur == before + [bs[i]] + tail;
    ReplaceMiddle(before, bs[i], Rise(bs[i]), tail);
    assert bs[i..] == [bs[i]] + bs[i + 1..];
    if Rise(bs[i]).y > TOP_EDGE {
      assert Advance(bs[i..]) == tail;
    } else {
      assert Advance(bs[i..]) == [Rise(bs[i])] + tail;
      assert before + [Rise(bs[i])] + tail == before + ([Rise(bs[i])] + tail);
    }
  }

  /** What advancing one bullet at p contributes to the count of b. */
  lemma RiseCount(p: Pos, b: Pos)
    ensures multiset(if Rise(p).y > TOP_EDGE then [] else [Rise(p)])[b] ==
            if b.y <= TOP_EDGE && p == Pos(b.x, b.y - BULLET_SPEED) then 1 else 0
  {
    assert Rise(p) == b <==> p == Pos(b.x, b.y - BULLET_SPEED);
  }

  /** A bullet at b is in the advanced collection exactly as often as one
      at b's position 12 lower was in the old one, provided b is not past
      the top edge: every survivor rose by exactly 12, and exactly the
      bullets whose new y is past the top were dropped. */
  lemma {:induction false} AdvanceCount(bs: seq<Pos>, b: Pos)
    ensures multiset(Advance(bs))[b] ==
            if b.y <= TOP_EDGE then multiset(bs)[Pos(b.x, b.y - BULLET_SPEED)] else 0
    decreases |bs|
  {
    if bs != [] {
      var head := if Rise(bs[0]).y > TOP_EDGE then [] else [Rise(bs[0])];
      assert Advance(bs) == head + Advance(bs[1..]);
      assert bs == [bs[0]] + bs[1..];
      AdvanceCount(bs[1..], b);
      RiseCount(bs[0], b);
    }
  }

  // ---------------------------------------------------------------- spawning

  /** The enemy collection after the spawn check of a frame whose
      (incremented) counter is `frame`: extended by one new enemy at the
      drawn x exactly when the counter is a multiple of the interval. */
  function Spawned(es: seq<Pos>, frame: nat, x: SpawnX): (r: seq<Pos>)
    ensures |es| <= |r| <= |es| + 1 && r[..|es|] == es
    ensures |r| == |es| + 1 <==> frame % ENEMY_SPAWN_INTERVAL == 0
    ensures |r| == |es| + 1 ==> r[|es|].x == x && r[|es|].y == TOP_EDGE - 30
  {
    if frame % ENEMY_SPAWN_INTERVAL == 0 then es + [EnemyAt(x)] else es
  }

  // ---------------------------------------------------------------- enemies

  function Fall(e: Pos): Pos
  {
    Pos(e.x, e.y - ENEMY_SPEED)
  }

  /** The enemies after one frame in which none touches the player: each
      falls by ENEMY_SPEED, and those past the bottom edge are dropped. */
  function Descend(es: seq<Pos>): (r: seq<Pos>)
    ensures |r| <= |es|
    ensures forall i :: 0 <= i < |r| ==> r[i].y >= BOTTOM_EDGE
    decreases |es|
  {
    if es == [] then []
    else (if Fall(es[0]).y < BOTTOM_EDGE then [] else [Fall(es[0])]) + Descend(es[1..])
  }

  /** What lowering one enemy at p contributes to the count of e. */
  lemma FallCount(p: Pos, e: Pos)
    ensures multiset(if Fall(p).y < BOTTOM_EDGE then [] else [Fall(p)])[e] ==
            if e.y >= BOTTOM_EDGE && p == Pos(e.x, e.y + ENEMY_SPEED) then 1 else 0
  {
    assert Fall(p) == e <==> p == Pos(e.x, e.y + ENEMY_SPEED);
  }

  /** An enemy at e survives the descent exactly as often as one at e's
      position 2 higher was present, provided e is not past the bottom. */
  lemma {:induction false} DescendCount(es: seq<Pos>, e: Pos)
    ensures multiset(Descend(es))[e] ==
            if e.y >= BOTTOM_EDGE then multiset(es)[Pos(e.x, e.y + ENEMY_SPEED)] else 0
    decreases |es|
  {
    if es != [] {
      var head := if Fall(es[0]).y < BOTTOM_EDGE then [] else [Fall(es[0])];
      assert Descend(es) == head + Descend(es[1..]);
      assert es == [es[0]] + es[1..];
      DescendCount(es[1..], e);
      FallCount(es[0], e);
    }
  }

  /** One step of the reverse enemy loop when enemy i does not strike:
      lowering it (and splicing it out if it is past the bottom edge)
      descends enemies i onwards. */
  lemma DescendStep(es: seq<Pos>, i: nat, cur: seq<Pos>)
    requires i < |es| && cur == es[..i + 1] + Descend(es[i + 1..])
    ensures i < |cur| && cur[i] == es[i]
    ensures var lowered := cur[i := Fall(cur[i])];
            && lowered == es[..i] + [Fall(es[i])] + Descend(es[i + 1..])
            && (lowered[i].y < BOTTOM_EDGE ==> lowered[..i] + lowered[i + 1..] == es[..i] + Descend(es[i..]))
            && (lowered[i].y >= BOTTOM_EDGE ==> lowered == es[..i] + Descend(es[i..]))
  {
    var before, tail := es[..i], Descend(es[i + 1..]);
    assert |before| == i;
    assert es[..i + 1] == before + [es[i]];
    assert cur == before + [es[i]] + tail;
    ReplaceMiddle(before, es[i], Fall(es[i]), tail);
    assert es[i..] == [es[i]] + es[i + 1..];
    if Fall(es[i]).y < BOTTOM_EDGE {
      assert Descend(es[i..]) == tail;
    } else {
      assert Descend(es[i..]) == [Fall(es[i])] + tail;
      assert before + [Fall(es[i])] + tail == before + ([Fall(es[i])] + tail);
    }
  }

  /** Descending keeps the enemies' order. */
  lemma {:induction false} DescendConcat(a: seq<Pos>, b: seq<Pos>)
    ensures Descend(a + b) == Descend(a) + Descend(b)
    decreases |a|
  {
    if a == [] {
      assert a + b == b;
    } else {
      assert (a + b)[0] == a[0];
      assert (a + b)[1..] == a[1..] + b;
      DescendConcat(a[1..], b);
    }
  }

  /** The index of the last enemy that touches the player p once it has
      fallen, or -1 when none does. The enemy loop visits indices from the
      last down, so this is the one that ends the game. */
  function LastStrike(es: seq<Pos>, p: Pos): (k: int)
    ensures -1 <= k < |es|
    ensures k >= 0 ==> IsColliding(Fall(es[k]), p)
    ensures forall i {:trigger IsColliding(Fall(es[i]), p)} :: k < i < |es| ==> !IsColliding(Fall(es[i]), p)
    decreases |es|
  {
    if es == [] then -1
    else if IsColliding(Fall(es[|es| - 1]), p) then |es| - 1
    else LastStrike(es[..|es| - 1], p)
  }

  /** The reverse scan for the striking enemy: when none after i strikes,
      enemy i is the last striker exactly when it strikes. */
  lemma StrikeScan(es: seq<Pos>, p: Pos, i: nat)
    requires i < |es| && LastStrike(es, p) <= i
    ensures IsColliding(Fall(es[i]), p) ==> LastStrike(es, p) == i
    ensures !IsColliding(Fall(es[i]), p) ==> LastStrike(es, p) < i
  {
  }

  /** Outcome of the enemy loop: whether an enemy struck the player, and
      the enemy collection the loop leaves. */
  datatype Sweep = Sweep(struck: bool, enemies: seq<Pos>)

  /** The enemy loop against player p: stopped by the last enemy that
      strikes the player, if any. */
  function SweepEnemies(es: seq<Pos>, p: Pos): Sweep
  {
    var k := LastStrike(es, p);
    if k < 0 then Sweep(false, Descend(es))
    else Sweep(true, es[..k] + [Fall(es[k])] + Descend(es[k + 1..]))
  }

  /** The enemy loop strikes exactly when some enemy, once fallen, touches
      the player. With no strike every enemy descends. When the enemy at k
      strikes, the loop stops there: the enemy at k has fallen and stays,
      those before k are untouched, those after k (visited first) have
      descended, and none of them strikes. */
  lemma SweepOutcome(es: seq<Pos>, p: Pos)
    ensures var r := SweepEnemies(es, p);
            && (r.struck <==> exists i :: 0 <= i < |es| && IsColliding(Fall(es[i]), p))
            && (!r.struck ==> r.enemies == Descend(es))
            && (r.struck ==>
                  var k := LastStrike(es, p);
                  && 0 <= k < |r.enemies| && r.enemies[..k] == es[..k] && r.enemies[k] == Fall(es[k])
                  && r.enemies[k + 1..] == Descend(es[k + 1..])
                  && forall i :: k < i < |es| ==> !IsColliding(Fall(es[i]), p))
  {
    var k := LastStrike(es, p);
    if k >= 0 {
      var r := SweepEnemies(es, p);
      assert r.enemies == es[..k] + [Fall(es[k])] + Descend(es[k + 1..]);
      assert r.enemies[..k] == es[..k];
      assert r.enemies[k + 1..] == Descend(es[k + 1..]);
    }
  }

  /** The enemy loop, stopped by enemy k, leaves what it has lowered so
      far when k is the last enemy that strikes the player. */
  lemma SweepStopsAt(es: seq<Pos>, p: Pos, k: nat, cur: seq<Pos>)
    requires k < |es| && LastStrike(es, p) == k
    requires cur == es[..k] + [Fall(es[k])] + Descend(es[k + 1..])
    ensures SweepEnemies(es, p) == Sweep(true, cur)
  {
  }

  /** With no enemy striking the player, the enemy loop is a plain descent. */
  lemma SweepRunsThrough(es: seq<Pos>, p: Pos)
    requires LastStrike(es, p) < 0
    ensures SweepEnemies(es, p) == Sweep(false, Descend(es))
  {
  }
}
