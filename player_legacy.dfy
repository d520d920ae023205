/**
 * The earlier controller of components/World/Player.js: the same WASD flags,
 * no collision test at all, and a gem trigger measured in full 3D distance
 * from the eye. It accepts monoliths and a monolith callback but never looks
 * at them.
 */
module PlayerLegacy {
  import opened Wrappers
  import opened GameTypes
  import opened Controls
  import PlayerStep

  /** Within 2 units in space, compared squared. */
  predicate GemInReach3D<T>(g: Gem<T>, eye: Vec3)
  {
    !g.collected && DistSq(eye, g.position) < PlayerStep.GemReachSq
  }

  predicate FirstGem3D<T>(gems: seq<Gem<T>>, eye: Vec3, k: nat)
  {
    k < |gems| && GemInReach3D(gems[k], eye) && forall j :: 0 <= j < k ==> !GemInReach3D(gems[j], eye)
  }

  predicate NoGem3D<T>(gems: seq<Gem<T>>, eye: Vec3)
  {
    forall j :: 0 <= j < |gems| ==> !GemInReach3D(gems[j], eye)
  }

  /** With the eye at 1.6 and a gem at height 1, the 3D test reaches 2 units only
      in space: on the ground the reach shrinks to a squared radius of 3.64. */
  lemma EyeHeightShrinksReach<T>(g: Gem<T>, x: real, z: real)
    requires g.position.y == 1.0
    ensures GemInReach3D(g, Vec3(x, PlayerStep.EyeHeight, z)) <==>
      !g.collected && PlanarDistSq(x, z, g.position.x, g.position.z) < 3.64
  {
    var eye := Vec3(x, PlayerStep.EyeHeight, z);
    var dx, dz := x - g.position.x, z - g.position.z;
    assert eye.y - g.position.y == 0.6;
    assert DistSq(eye, g.position) == dx * dx + 0.6 * 0.6 + dz * dz;
    assert PlanarDistSq(x, z, g.position.x, g.position.z) == dx * dx + dz * dz;
  }

  /** Any gem the 3D test reaches is also within the planar reach of Player.tsx. */
  lemma Reach3DWithinPlanar<T>(g: Gem<T>, eye: Vec3)
    requires GemInReach3D(g, eye)
    ensures PlayerStep.GemInReach(g, eye.x, eye.z)
  {
    var dy := eye.y - g.position.y;
    assert dy * dy >= 0.0;
    assert DistSq(eye, g.position) == PlanarDistSq(eye.x, eye.z, g.position.x, g.position.z) + dy * dy;
  }

  class LegacyPlayer {
    var moveState: MoveState
    var x: real
    var y: real
    var z: real
    var vx: real
    var vz: real
    var lastInteractTime: int

    constructor(x0: real, y0: real, z0: real)
      ensures moveState == Idle && x == x0 && y == y0 && z == z0
      ensures vx == 0.0 && vz == 0.0 && lastInteractTime == 0
    {
      moveState := Idle;
      x, y, z := x0, y0, z0;
      vx, vz := 0.0, 0.0;
      lastInteractTime := 0;
    }

    method OnKeyDown(code: string)
      modifies this
      ensures moveState == KeyDown(old(moveState), code)
      ensures x == old(x) && y == old(y) && z == old(z) && vx == old(vx) && vz == old(vz)
      ensures lastInteractTime == old(lastInteractTime)
    {
      moveState := KeyDown(moveState, code);
    }

    method OnKeyUp(code: string)
      modifies this
      ensures moveState == KeyUp(old(moveState), code)
      ensures x == old(x) && y == old(y) && z == old(z) && vx == old(vx) && vz == old(vz)
      ensures lastInteractTime == old(lastInteractTime)
    {
      moveState := KeyUp(moveState, code);
    }

    /** The gem loop of the frame callback, at the eye position. */
    static method ScanGems3D<T>(gems: seq<Gem<T>>, eye: Vec3) returns (found: Option<nat>)
      ensures found.Some? ==> FirstGem3D(gems, eye, found.value)
      ensures found.None? ==> NoGem3D(gems, eye)
    {
      var i := 0;
      while i < |gems|
        invariant 0 <= i <= |gems|
        invariant forall j :: 0 <= j < i ==> !GemInReach3D(gems[j], eye)
      {
        if !gems[i].collected && DistSq(eye, gems[i].position) < PlayerStep.GemReachSq {
          return Some(i);
        }
        i := i + 1;
      }
      return None;
    }

    /**
     * One frame: unless paused, the position advances by the blended velocity on
     * both ground axes with no obstacle test, the eye is put at 1.6, and once the
     * cooldown has passed the first gem within reach in space fires. The monolith
     * arguments are never consulted.
     */
    method Frame(gems: seq<Gem<string>>, monoliths: seq<Monolith<string>>,
                 isPaused: bool, delta: real, newVx: real, newVz: real, now: int)
      returns (event: PlayerStep.Approach)
      modifies this
      ensures moveState == old(moveState)
      ensures !event.MonolithApproach?
      ensures isPaused ==>
        && event == PlayerStep.NoApproach && x == old(x) && y == old(y) && z == old(z)
        && vx == old(vx) && vz == old(vz) && lastInteractTime == old(lastInteractTime)
      ensures !isPaused ==>
        && vx == newVx && vz == newVz && y == PlayerStep.EyeHeight
        && x == old(x) + newVx * delta && z == old(z) + newVz * delta
      ensures event.GemApproach? ==> FirstGem3D(gems, Vec3(x, y, z), event.gem)
      ensures event.NoApproach? && !isPaused && now - old(lastInteractTime) > PlayerStep.Cooldown ==>
        NoGem3D(gems, Vec3(x, y, z))
      ensures event != PlayerStep.NoApproach ==>
        now - old(lastInteractTime) > PlayerStep.Cooldown && lastInteractTime == now
      ensures event == PlayerStep.NoApproach ==> lastInteractTime == old(lastInteractTime)
    {
      if isPaused {
        return PlayerStep.NoApproach;
      }
      vx, vz := newVx, newVz;
      x, z := x + vx * delta, z + vz * delta;
      y := PlayerStep.EyeHeight;

      event := PlayerStep.NoApproach;
      if now - lastInteractTime > PlayerStep.Cooldown {
        var g := ScanGems3D(gems, Vec3(x, y, z));
        if g.Some? {
          lastInteractTime := now;
          return PlayerStep.GemApproach(g.value);
        }
      }
    }
  }
}
