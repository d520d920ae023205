/**
 * The walking NPC of components/World/NPC.tsx. Each frame the NPC copies its x
 * and z back into its data record (which the player's collision test reads),
 * then either greets a camera closer than 5, standing still and bobbing, or
 * patrols: it walks `delta * 1.8` straight toward its target, and on arrival
 * (within 0.5) picks a new target within 15 of where it stands.
 *
 * `distanceTo` toward the target is a square root; the frame takes that length
 * as the input `dist`, tied to the squared distance by its precondition, and
 * the player distance is compared squared. `Math.sin` of the clock is the input
 * `sine`, and the random draws are inputs too.
 */
module NpcWalker {
  import opened JsNum
  import opened GameTypes

  const GreetRadiusSq: real := 25.0
  const ArrivalRadius: real := 0.5
  const WalkSpeed: real := 1.8
  const BobAmplitude: real := 0.02
  const InitialSpread: real := 20.0
  const RetargetSpread: real := 30.0

  const Greetings: seq<string> := [
    "Hello Agent!", "Stay safe out there.", "Cryptos are everywhere!", "Nice weather today.",
    "Looking for gems?", "Watch out for glitches!", "Code is power."]

  /** The greeting picked once per NPC: `GREETINGS[Math.floor(r * 7)]`. */
  function GreetingFor(r: real): (g: string)
    requires 0.0 <= r < 1.0
    ensures g in Greetings
  {
    var k := (r * |Greetings| as real).Floor;
    MulStrict(|Greetings| as real, r, 1.0);
    Greetings[k]
  }

  /** The camera is close enough to be greeted. */
  predicate Greets(position: Vec3, camera: Vec3)
  {
    DistSq(position, camera) < GreetRadiusSq
  }

  function Sub(a: Vec3, b: Vec3): Vec3
  {
    Vec3(a.x - b.x, a.y - b.y, a.z - b.z)
  }

  function Scale(v: Vec3, s: real): Vec3
  {
    Vec3(v.x * s, v.y * s, v.z * s)
  }

  function NormSq(v: Vec3): real
  {
    v.x * v.x + v.y * v.y + v.z * v.z
  }

  /** `position + normalize(target - position) * step`, with `dist` the length of
      `target - position`. */
  function PatrolStep(p: Vec3, t: Vec3, dist: real, step: real): Vec3
    requires dist > 0.0
  {
    var f := step / dist;
    Vec3(p.x + (t.x - p.x) * f, p.y + (t.y - p.y) * f, p.z + (t.z - p.z) * f)
  }

  /** Scaling a vector scales its squared length by the square of the factor. */
  lemma NormScale(v: Vec3, s: real)
    ensures NormSq(Scale(v, s)) == s * s * NormSq(v)
  {
    var x, y, z := v.x, v.y, v.z;
    assert (x * s) * (x * s) == s * s * (x * x);
    assert (y * s) * (y * s) == s * s * (y * y);
    assert (z * s) * (z * s) == s * s * (z * z);
  }

  /** Seen from either end, a patrol step is the target offset scaled. */
  lemma PatrolStepOffsets(p: Vec3, t: Vec3, dist: real, step: real)
    requires dist > 0.0
    ensures Sub(PatrolStep(p, t, dist, step), p) == Scale(Sub(p, t), -(step / dist))
    ensures Sub(PatrolStep(p, t, dist, step), t) == Scale(Sub(p, t), 1.0 - step / dist)
  {
    var f := step / dist;
    AxisOffsets(p.x, t.x, f);
    AxisOffsets(p.y, t.y, f);
    AxisOffsets(p.z, t.z, f);
  }

  lemma AxisOffsets(p: real, t: real, f: real)
    ensures (p + (t - p) * f) - p == (p - t) * -f
    ensures (p + (t - p) * f) - t == (p - t) * (1.0 - f)
  {
  }

  /** A patrol step moves exactly `step` and, for any step, leaves the NPC `|dist - step|`
      from its target: a step no longer than the distance ends that much closer. */
  lemma PatrolStepGeometry(p: Vec3, t: Vec3, dist: real, step: real)
    requires dist > 0.0 && dist * dist == DistSq(p, t)
    ensures DistSq(PatrolStep(p, t, dist, step), p) == step * step
    ensures DistSq(PatrolStep(p, t, dist, step), t) == (dist - step) * (dist - step)
  {
    var q := PatrolStep(p, t, dist, step);
    var f := step / dist;
    var v := Sub(p, t);
    PatrolStepOffsets(p, t, dist, step);
    assert DistSq(q, p) == NormSq(Sub(q, p));
    assert DistSq(q, t) == NormSq(Sub(q, t));
    assert NormSq(v) == dist * dist;
    NormScale(v, -f);
    NormScale(v, 1.0 - f);
    ScaledSquare(-f, dist, -step);
    ScaledSquare(1.0 - f, dist, dist - step);
  }

  /** `(k * d)^2` written as `k^2 * d^2`. */
  lemma ScaledSquare(k: real, d: real, e: real)
    requires k * d == e
    ensures k * k * (d * d) == e * e
  {
    assert k * k * (d * d) == (k * d) * (k * d);
  }

  class Npc {
    /** `data.position`, the record the player's collision test reads. */
    var dataPosition: Vec3
    /** The group's position. */
    var position: Vec3
    var target: Vec3
    var isGreeting: bool

    /** Mounting: the group starts on the ground at the spawn point and the first target
        lies within 10 of it on both axes. */
    constructor(data: NpcData, r1: real, r2: real)
      requires 0.0 <= r1 < 1.0 && 0.0 <= r2 < 1.0
      ensures dataPosition == data.position
      ensures position == Vec3(data.position.x, 0.0, data.position.z)
      ensures target.y == 0.0
      ensures Abs(target.x - data.position.x) <= InitialSpread / 2.0
      ensures Abs(target.z - data.position.z) <= InitialSpread / 2.0
      ensures !isGreeting
    {
      dataPosition := data.position;
      position := Vec3(data.position.x, 0.0, data.position.z);
      target := Vec3(data.position.x + Offset(r1, InitialSpread), 0.0, data.position.z + Offset(r2, InitialSpread));
      isGreeting := false;
    }

    /**
     * One `useFrame` call. The write-back of x and z happens first, from the position
     * before this frame's move. A greeted camera freezes x and z and bobs y; otherwise
     * the NPC walks toward its target while more than 0.5 from it, and on arrival
     * bobs in place and draws a new target within 15 of its synced position.
     */
    method Frame(camera: Vec3, delta: real, sine: real, dist: real, r1: real, r2: real)
      requires -1.0 <= sine <= 1.0
      requires dist >= 0.0 && dist * dist == DistSq(position, target)
      requires 0.0 <= r1 < 1.0 && 0.0 <= r2 < 1.0
      modifies this
      ensures dataPosition == Vec3(old(position).x, old(dataPosition).y, old(position).z)
      ensures isGreeting <==> Greets(old(position), camera)
      ensures isGreeting ==>
        && position == Vec3(old(position).x, sine * BobAmplitude, old(position).z)
        && target == old(target)
      ensures !isGreeting && dist > ArrivalRadius ==>
        && position == PatrolStep(old(position), old(target), dist, delta * WalkSpeed)
        && target == old(target)
        && DistSq(position, old(position)) == (delta * WalkSpeed) * (delta * WalkSpeed)
        && DistSq(position, target) == (dist - delta * WalkSpeed) * (dist - delta * WalkSpeed)
      ensures !isGreeting && dist <= ArrivalRadius ==>
        && position == Vec3(old(position).x, sine * BobAmplitude, old(position).z)
        && target.y == 0.0
        && Abs(target.x - dataPosition.x) <= RetargetSpread / 2.0
        && Abs(target.z - dataPosition.z) <= RetargetSpread / 2.0
      ensures isGreeting || dist <= ArrivalRadius ==> -BobAmplitude <= position.y <= BobAmplitude
    {
      dataPosition := Vec3(position.x, dataPosition.y, position.z);
      if Greets(position, camera) {
        isGreeting := true;
        position := Vec3(position.x, sine * BobAmplitude, position.z);
      } else {
        isGreeting := false;
        if dist > ArrivalRadius {
          PatrolStepGeometry(position, target, dist, delta * WalkSpeed);
          position := PatrolStep(position, target, dist, delta * WalkSpeed);
        } else {
          target := Vec3(dataPosition.x + Offset(r1, RetargetSpread), 0.0, dataPosition.z + Offset(r2, RetargetSpread));
          position := Vec3(position.x, sine * BobAmplitude, position.z);
        }
      }
    }
  }
}
