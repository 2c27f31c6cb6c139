/** The edge-triggered shoot latch: one bullet per press of the shoot key,
    re-armed only once the key is released. */
module Shooting {

  /** The latch's verdict for one frame: whether a bullet leaves the gun,
      and whether the gun is armed (canShoot) afterwards. */
  datatype Latch = Latch(fired: bool, armed: bool)

  /** One evaluation of the latch, given whether it was armed, whether the
      game is over and whether either shoot key is held. */
  function Trigger(armed: bool, gameOver: bool, shoot: bool): (r: Latch)
    ensures r.fired <==> shoot && armed && !gameOver
    ensures r.fired ==> !r.armed
    ensures !shoot ==> r.armed
    ensures shoot && r.armed ==> armed
  {
    var fired := shoot && armed && !gameOver;
    var armedAfterFiring := if fired then false else armed;
    Latch(fired, if !shoot then true else armedAfterFiring)
  }

  /** The number of bullets the latch fires over consecutive live frames,
      presses[i] telling whether a shoot key is held in frame i. */
  function Volley(armed: bool, presses: seq<bool>): nat
    decreases |presses|
  {
    if presses == [] then 0
    else
      var t := Trigger(armed, false, presses[0]);
      (if t.fired then 1 else 0) + Volley(t.armed, presses[1..])
  }

  /** Whether the latch is armed after those frames. */
  function ArmedAfter(armed: bool, presses: seq<bool>): bool
    decreases |presses|
  {
    if presses == [] then armed
    else ArmedAfter(Trigger(armed, false, presses[0]).armed, presses[1..])
  }

  /** Holding a shoot key for any number of frames fires at most once:
      once if the latch was armed, never otherwise; and it leaves the latch
      disarmed. */
  lemma {:induction false} HoldFiresAtMostOnce(armed: bool, presses: seq<bool>)
    requires forall i :: 0 <= i < |presses| ==> presses[i]
    ensures Volley(armed, presses) == if armed && presses != [] then 1 else 0
    ensures ArmedAfter(armed, presses) == (armed && presses == [])
    decreases |presses|
  {
    if presses != [] {
      HoldFiresAtMostOnce(false, presses[1..]);
    }
  }

  /** Frames with no shoot key held fire nothing, and at least one of them
      re-arms the latch. */
  lemma {:induction false} ReleaseRearms(armed: bool, presses: seq<bool>)
    requires forall i :: 0 <= i < |presses| ==> !presses[i]
    ensures Volley(armed, presses) == 0
    ensures ArmedAfter(armed, presses) == (armed || presses != [])
    decreases |presses|
  {
    if presses != [] {
      ReleaseRearms(true, presses[1..]);
    }
  }

  /** Firing over two runs of frames adds up, the second run starting
      from the latch state the first one left. */
  lemma {:induction false} VolleyConcat(armed: bool, a: seq<bool>, b: seq<bool>)
    ensures Volley(armed, a + b) == Volley(armed, a) + Volley(ArmedAfter(armed, a), b)
    ensures ArmedAfter(armed, a + b) == ArmedAfter(ArmedAfter(armed, a), b)
    decreases |a|
  {
    if a == [] {
      assert a + b == b;
    } else {
      assert (a + b)[0] == a[0];
      assert (a + b)[1..] == a[1..] + b;
      VolleyConcat(Trigger(armed, false, a[0]).armed, a[1..], b);
    }
  }

  /** A press held for `hold` frames followed by a release of `release`
      frames. */
  function PressCycle(hold: nat, release: nat): seq<bool>
  {
    seq(hold, _ => true) + seq(release, _ => false)
  }

  /** Press-and-release cycles one after another. */
  function Cycles(cycles: seq<(nat, nat)>): seq<bool>
    decreases |cycles|
  {
    if cycles == [] then [] else PressCycle(cycles[0].0, cycles[0].1) + Cycles(cycles[1..])
  }

  /** Exactly one bullet per press-and-release cycle, however long each
      press is held, and the latch is armed again after each release. */
  lemma {:induction false} OneBulletPerPress(cycles: seq<(nat, nat)>)
    requires forall i :: 0 <= i < |cycles| ==> cycles[i].0 > 0 && cycles[i].1 > 0
    ensures Volley(true, Cycles(cycles)) == |cycles|
    ensures ArmedAfter(true, Cycles(cycles))
    decreases |cycles|
  {
    if cycles != [] {
      var (hold, release) := cycles[0];
      var held: seq<bool> := seq(hold, _ => true);
      var released: seq<bool> := seq(release, _ => false);
      HoldFiresAtMostOnce(true, held);
      ReleaseRearms(false, released);
      VolleyConcat(true, held, released);
      OneBulletPerPress(cycles[1..]);
      VolleyConcat(true, held + released, Cycles(cycles[1..]));
    }
  }
}
