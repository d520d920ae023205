/**
 * The first-person controller of components/World/Player.tsx: WASD flags,
 * the collision test against the world edge, building boxes and NPC circles,
 * the per-axis move (z is tested after x has been committed), the eye height,
 * the cooldown-gated proximity trigger (gems before monoliths, first match in
 * list order), and the nudge that pushes the player away from a gem after a
 * cancelled puzzle.
 *
 * The velocity blend toward the camera-rotated key direction and the
 * normalisation of the nudge direction are floating-point vector maths; both
 * arrive here as inputs.
 */
module PlayerStep {
  import opened Wrappers
  import opened JsNum
  import opened GameTypes
  import opened Controls

  const HalfWorld: real := 150.0
  const PlayerRadius: real := 0.7
  const NpcRadius: real := 0.4
  const EyeHeight: real := 1.6
  /** Milliseconds that must pass between two interactions. */
  const Cooldown: int := 1000
  const GemReachSq: real := 4.0
  const MonolithReachSq: real := 9.0
  const NudgeDistance: real := 4.0

  // ---------------------------------------------------------------------------
  // Collision

  predicate OutOfBounds(x: real, z: real)
  {
    Abs(x) > HalfWorld - 1.0 || Abs(z) > HalfWorld - 1.0
  }

  /** Strictly inside the building's footprint grown by the player radius on every side. */
  predicate InsideBuilding(b: Building, x: real, z: real)
  {
    && b.position.x - b.scale.x / 2.0 - PlayerRadius < x < b.position.x + b.scale.x / 2.0 + PlayerRadius
    && b.position.z - b.scale.z / 2.0 - PlayerRadius < z < b.position.z + b.scale.z / 2.0 + PlayerRadius
  }

  /** Closer to the NPC than the two radii together. */
  predicate TouchesNpc(n: NpcData, x: real, z: real)
  {
    PlanarDistSq(x, z, n.position.x, n.position.z) < (PlayerRadius + NpcRadius) * (PlayerRadius + NpcRadius)
  }

  /** What `checkCollision(x, z)` answers. */
  predicate Blocked(buildings: seq<Building>, npcs: seq<NpcData>, x: real, z: real)
  {
    || OutOfBounds(x, z)
    || (exists i :: 0 <= i < |buildings| && InsideBuilding(buildings[i], x, z))
    || (exists i :: 0 <= i < |npcs| && TouchesNpc(npcs[i], x, z))
  }

  /** `checkCollision`: the bounds test, then a scan of the buildings, then of the NPCs,
      each returning as soon as one fires. */
  method CheckCollision(buildings: seq<Building>, npcs: seq<NpcData>, x: real, z: real) returns (hit: bool)
    ensures hit <==> Blocked(buildings, npcs, x, z)
  {
    if Abs(x) > HalfWorld - 1.0 || Abs(z) > HalfWorld - 1.0 {
      return true;
    }
    var i := 0;
    while i < |buildings|
      invariant 0 <= i <= |buildings|
      invariant forall j :: 0 <= j < i ==> !InsideBuilding(buildings[j], x, z)
    {
      var b := buildings[i];
      var minX := b.position.x - b.scale.x / 2.0 - PlayerRadius;
      var maxX := b.position.x + b.scale.x / 2.0 + PlayerRadius;
      var minZ := b.position.z - b.scale.z / 2.0 - PlayerRadius;
      var maxZ := b.position.z + b.scale.z / 2.0 + PlayerRadius;
      if x > minX && x < maxX && z > minZ && z < maxZ {
        return true;
      }
      i := i + 1;
    }
    i := 0;
    while i < |npcs|
      invariant 0 <= i <= |npcs|
      invariant forall j :: 0 <= j < i ==> !TouchesNpc(npcs[j], x, z)
    {
      var dx := x - npcs[i].position.x;
      var dz := z - npcs[i].position.z;
      var combined := PlayerRadius + NpcRadius;
      assert dx * dx + dz * dz == PlanarDistSq(x, z, npcs[i].position.x, npcs[i].position.z);
      if dx * dx + dz * dz < combined * combined {
        return true;
      }
      i := i + 1;
    }
    return false;
  }

  /** A free position lies inside the walkable square. */
  lemma FreeWithinBounds(buildings: seq<Building>, npcs: seq<NpcData>, x: real, z: real)
    requires !Blocked(buildings, npcs, x, z)
    ensures -149.0 <= x <= 149.0 && -149.0 <= z <= 149.0
  {
  }

  /** A point exactly on a grown footprint edge is not inside the building. */
  lemma FootprintEdgeIsOpen(b: Building, z: real)
    requires b.position.z - b.scale.z / 2.0 - PlayerRadius < z < b.position.z + b.scale.z / 2.0 + PlayerRadius
    ensures !InsideBuilding(b, b.position.x - b.scale.x / 2.0 - PlayerRadius, z)
    ensures !InsideBuilding(b, b.position.x + b.scale.x / 2.0 + PlayerRadius, z)
    ensures InsideBuilding(b, b.position.x, z) <==> b.scale.x / 2.0 + PlayerRadius > 0.0
  {
  }

  // ---------------------------------------------------------------------------
  // Per-axis move

  /** Try x first against the old z, then z against the new x; a blocked axis keeps
      its coordinate. */
  function StepAxes(buildings: seq<Building>, npcs: seq<NpcData>, x: real, z: real, dx: real, dz: real): (p: (real, real))
    ensures p.0 == x || p.0 == x + dx
    ensures p.1 == z || p.1 == z + dz
    ensures !Blocked(buildings, npcs, x, z) ==> !Blocked(buildings, npcs, p.0, p.1)
  {
    var x1 := if Blocked(buildings, npcs, x + dx, z) then x else x + dx;
    var z1 := if Blocked(buildings, npcs, x1, z + dz) then z else z + dz;
    (x1, z1)
  }

  /** x moves exactly when (x + dx, z) is free; z is then tested at the new x, so
      the player slides along a wall that stops only one axis. */
  lemma StepAxesOrder(buildings: seq<Building>, npcs: seq<NpcData>, x: real, z: real, dx: real, dz: real)
    ensures var p := StepAxes(buildings, npcs, x, z, dx, dz);
      && (p.0 == x + dx <==> dx == 0.0 || !Blocked(buildings, npcs, x + dx, z))
      && (p.1 == z + dz <==> dz == 0.0 || !Blocked(buildings, npcs, p.0, z + dz))
  {
  }

  /** A move that is blocked only diagonally is not taken in full: with x free the z
      test sees the corner. */
  lemma DiagonalCornerStopsZ(buildings: seq<Building>, npcs: seq<NpcData>, x: real, z: real, dx: real, dz: real)
    requires dz != 0.0
    requires !Blocked(buildings, npcs, x + dx, z) && Blocked(buildings, npcs, x + dx, z + dz)
    ensures StepAxes(buildings, npcs, x, z, dx, dz) == (x + dx, z)
  {
  }

  // ---------------------------------------------------------------------------
  // Proximity trigger

  datatype Approach = NoApproach | GemApproach(gem: nat) | MonolithApproach(monolith: nat)

  predicate GemInReach<T>(g: Gem<T>, x: real, z: real)
  {
    !g.collected && PlanarDistSq(x, z, g.position.x, g.position.z) < GemReachSq
  }

  predicate MonolithInReach<T>(m: Monolith<T>, x: real, z: real)
  {
    !m.solved && PlanarDistSq(x, z, m.position.x, m.position.z) < MonolithReachSq
  }

  /** `k` is the first gem in reach, in list order. */
  predicate FirstGem<T>(gems: seq<Gem<T>>, x: real, z: real, k: nat)
  {
    k < |gems| && GemInReach(gems[k], x, z) && forall j :: 0 <= j < k ==> !GemInReach(gems[j], x, z)
  }

  predicate NoGem<T>(gems: seq<Gem<T>>, x: real, z: real)
  {
    forall j :: 0 <= j < |gems| ==> !GemInReach(gems[j], x, z)
  }

  predicate FirstMonolith<T>(ms: seq<Monolith<T>>, x: real, z: real, k: nat)
  {
    k < |ms| && MonolithInReach(ms[k], x, z) && forall j :: 0 <= j < k ==> !MonolithInReach(ms[j], x, z)
  }

  predicate NoMonolith<T>(ms: seq<Monolith<T>>, x: real, z: real)
  {
    forall j :: 0 <= j < |ms| ==> !MonolithInReach(ms[j], x, z)
  }

  /** The gem loop: skip collected gems, stop at the first within reach. */
  method ScanGems<T>(gems: seq<Gem<T>>, x: real, z: real) returns (found: Option<nat>)
    ensures found.Some? ==> FirstGem(gems, x, z, found.value)
    ensures found.None? ==> NoGem(gems, x, z)
  {
    var i := 0;
    while i < |gems|
      invariant 0 <= i <= |gems|
      invariant forall j :: 0 <= j < i ==> !GemInReach(gems[j], x, z)
    {
      var g := gems[i];
      if !g.collected {
        var dx := x - g.position.x;
        var dz := z - g.position.z;
        assert dx * dx + dz * dz == PlanarDistSq(x, z, g.position.x, g.position.z);
        if dx * dx + dz * dz < GemReachSq {
          return Some(i);
        }
      }
      i := i + 1;
    }
    return None;
  }

  /** The monolith loop: skip solved monoliths, stop at the first within reach. */
  method ScanMonoliths<T>(ms: seq<Monolith<T>>, x: real, z: real) returns (found: Option<nat>)
    ensures found.Some? ==> FirstMonolith(ms, x, z, found.value)
    ensures found.None? ==> NoMonolith(ms, x, z)
  {
    var i := 0;
    while i < |ms|
      invariant 0 <= i <= |ms|
      invariant forall j :: 0 <= j < i ==> !MonolithInReach(ms[j], x, z)
    {
      var m := ms[i];
      if !m.solved {
        var dx := x - m.position.x;
        var dz := z - m.position.z;
        assert dx * dx + dz * dz == PlanarDistSq(x, z, m.position.x, m.position.z);
        if dx * dx + dz * dz < MonolithReachSq {
          return Some(i);
        }
      }
      i := i + 1;
    }
    return None;
  }

  /** The first gem in reach is unique, so the scan's answer is determined. */
  lemma FirstGemUnique<T>(gems: seq<Gem<T>>, x: real, z: real, k: nat, k': nat)
    requires FirstGem(gems, x, z, k) && FirstGem(gems, x, z, k')
    ensures k == k'
  {
  }

  /** The nudge target: four units from the gem along the given ground direction. */
  function NudgeTarget(gem: Vec3, dirX: real, dirZ: real): (t: (real, real))
    ensures PlanarDistSq(t.0, t.1, gem.x, gem.z) == 16.0 * (dirX * dirX + dirZ * dirZ)
  {
    (gem.x + dirX * NudgeDistance, gem.z + dirZ * NudgeDistance)
  }

  // ---------------------------------------------------------------------------
  // The controller

  class Player {
    var moveState: MoveState
    /** `camera.position`. */
    var x: real
    var y: real
    var z: real
    /** The ground components of the velocity ref. */
    var vx: real
    var vz: real
    var lastInteractTime: int

    constructor(x0: real, y0: real, z0: real)
      ensures moveState == Idle && x == x0 && y == y0 && z == z0
      ensures vx == 0.0 && vz == 0.0 && lastInteractTime == 0
    {
      moveState := Idle;
      x, y, z := x0, y0, z0;
      vx, vz := 0.0, 0.0;
      lastInteractTime := 0;
    }

    method OnKeyDown(code: string)
      modifies this
      ensures moveState == KeyDown(old(moveState), code)
      ensures x == old(x) && y == old(y) && z == old(z) && vx == old(vx) && vz == old(vz)
      ensures lastInteractTime == old(lastInteractTime)
    {
      moveState := KeyDown(moveState, code);
    }

    method OnKeyUp(code: string)
      modifies this
      ensures moveState == KeyUp(old(moveState), code)
      ensures x == old(x) && y == old(y) && z == old(z) && vx == old(vx) && vz == old(vz)
      ensures lastInteractTime == old(lastInteractTime)
    {
      moveState := KeyUp(moveState, code);
    }

    /**
     * The nudge effect, run when `nudgeTrigger` changes. With a positive trigger and
     * a target, the player is moved to the nudge point when that point is free and
     * stays put otherwise; either way the cooldown restarts at `now`. `(dirX, dirZ)`
     * is the ground part of the normalised direction from the gem to the player.
     */
    method Nudge(buildings: seq<Building>, npcs: seq<NpcData>, nudgeTrigger: int,
                 nudgeTarget: Option<Vec3>, dirX: real, dirZ: real, now: int)
      modifies this
      ensures moveState == old(moveState) && y == old(y) && vx == old(vx) && vz == old(vz)
      ensures !(nudgeTrigger > 0 && nudgeTarget.Some?) ==>
        x == old(x) && z == old(z) && lastInteractTime == old(lastInteractTime)
      ensures nudgeTrigger > 0 && nudgeTarget.Some? ==>
        var t := NudgeTarget(nudgeTarget.value, dirX, dirZ);
        && lastInteractTime == now
        && (if Blocked(buildings, npcs, t.0, t.1) then x == old(x) && z == old(z) else x == t.0 && z == t.1)
      ensures !Blocked(buildings, npcs, old(x), old(z)) ==> !Blocked(buildings, npcs, x, z)
    {
      if nudgeTrigger > 0 && nudgeTarget.Some? {
        var t := NudgeTarget(nudgeTarget.value, dirX, dirZ);
        var hit := CheckCollision(buildings, npcs, t.0, t.1);
        if !hit {
          x := t.0;
          z := t.1;
        }
        lastInteractTime := now;
      }
    }

    /**
     * One `useFrame` callback. `newVx`, `newVz` are the velocity after the blend
     * toward the key direction. A paused frame changes nothing. Otherwise the
     * player takes the per-axis step, is put at eye height, and, once the cooldown
     * has passed, the first gem within reach fires; failing that, the first
     * monolith within reach. A firing restarts the cooldown.
     */
    method Frame(buildings: seq<Building>, npcs: seq<NpcData>,
                 gems: seq<Gem<CryptoTopic>>, monoliths: seq<Monolith<PuzzleType>>,
                 isPaused: bool, delta: real, newVx: real, newVz: real, now: int)
      returns (event: Approach)
      modifies this
      ensures moveState == old(moveState)
      ensures isPaused ==>
        && event == NoApproach && x == old(x) && y == old(y) && z == old(z)
        && vx == old(vx) && vz == old(vz) && lastInteractTime == old(lastInteractTime)
      ensures !isPaused ==>
        && vx == newVx && vz == newVz && y == EyeHeight
        && (x, z) == StepAxes(buildings, npcs, old(x), old(z), newVx * delta, newVz * delta)
      ensures !Blocked(buildings, npcs, old(x), old(z)) ==> !Blocked(buildings, npcs, x, z)
      ensures event.GemApproach? ==> FirstGem(gems, x, z, event.gem)
      ensures event.MonolithApproach? ==> NoGem(gems, x, z) && FirstMonolith(monoliths, x, z, event.monolith)
      ensures event.NoApproach? && !isPaused && now - old(lastInteractTime) > Cooldown ==>
        NoGem(gems, x, z) && NoMonolith(monoliths, x, z)
      ensures event != NoApproach ==> now - old(lastInteractTime) > Cooldown && lastInteractTime == now
      ensures event == NoApproach ==> lastInteractTime == old(lastInteractTime)
    {
      if isPaused {
        return NoApproach;
      }
      vx, vz := newVx, newVz;
      var nextX := x + vx * delta;
      var nextZ := z + vz * delta;
      var hitX := CheckCollision(buildings, npcs, nextX, z);
      var newX := if hitX then x else nextX;
      var hitZ := CheckCollision(buildings, npcs, newX, nextZ);
      var newZ := if hitZ then z else nextZ;
      assert nextX == x + newVx * delta && nextZ == z + newVz * delta;
      assert hitX == Blocked(buildings, npcs, x + newVx * delta, z);
      assert newX == StepAxes(buildings, npcs, x, z, newVx * delta, newVz * delta).0;
      assert (newX, newZ) == StepAxes(buildings, npcs, x, z, newVx * delta, newVz * delta);
      x, z := newX, newZ;
      y := EyeHeight;

      event := NoApproach;
      if now - lastInteractTime > Cooldown {
        var g := ScanGems(gems, x, z);
        if g.Some? {
          lastInteractTime := now;
          return GemApproach(g.value);
        }
        var m := ScanMonoliths(monoliths, x, z);
        if m.Some? {
          lastInteractTime := now;
          event := MonolithApproach(m.value);
        }
      }
    }
  }
}
