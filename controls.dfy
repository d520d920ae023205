/**
 * The WASD key flags shared by Player.tsx, Player.js and index.js: a
 * `keydown` of KeyW/KeyS/KeyA/KeyD sets forward/backward/left/right, the
 * matching `keyup` clears it, and every other key code is ignored.
 */
module Controls {

  datatype MoveState = MoveState(forward: bool, backward: bool, left: bool, right: bool)

  const Idle := MoveState(false, false, false, false)

  /** The `onKeyDown` switch: each flag becomes set exactly when its own key goes down. */
  function KeyDown(ms: MoveState, code: string): (r: MoveState)
    ensures r.forward == (ms.forward || code == "KeyW")
    ensures r.backward == (ms.backward || code == "KeyS")
    ensures r.left == (ms.left || code == "KeyA")
    ensures r.right == (ms.right || code == "KeyD")
  {
    match code
    case "KeyW" => ms.(forward := true)
    case "KeyS" => ms.(backward := true)
    case "KeyA" => ms.(left := true)
    case "KeyD" => ms.(right := true)
    case _ => ms
  }

  /** The `onKeyUp` switch: each flag is cleared exactly when its own key goes up. */
  function KeyUp(ms: MoveState, code: string): (r: MoveState)
    ensures r.forward == (ms.forward && code != "KeyW")
    ensures r.backward == (ms.backward && code != "KeyS")
    ensures r.left == (ms.left && code != "KeyA")
    ensures r.right == (ms.right && code != "KeyD")
  {
    match code
    case "KeyW" => ms.(forward := false)
    case "KeyS" => ms.(backward := false)
    case "KeyA" => ms.(left := false)
    case "KeyD" => ms.(right := false)
    case _ => ms
  }

  predicate IsMoveKey(code: string)
  {
    code == "KeyW" || code == "KeyS" || code == "KeyA" || code == "KeyD"
  }

  /** Any other key code leaves all four flags as they were. */
  lemma OtherKeysIgnored(ms: MoveState, code: string)
    requires !IsMoveKey(code)
    ensures KeyDown(ms, code) == ms && KeyUp(ms, code) == ms
  {
  }

  /** Press then release of the same key leaves that key released and the others untouched;
      release undoes press whenever the key was up before. */
  lemma PressThenRelease(ms: MoveState, code: string)
    ensures KeyUp(KeyDown(ms, code), code) == KeyUp(ms, code)
    ensures IsMoveKey(code) && KeyUp(ms, code) == ms ==> KeyUp(KeyDown(ms, code), code) == ms
  {
  }

  /** index.js: the move vector before normalisation, `(x, z)`: forward is -z,
      backward +z, left -x, right +x. */
  function MoveVector(ms: MoveState): (int, int)
  {
    ((if ms.right then 1 else 0) - (if ms.left then 1 else 0),
     (if ms.backward then 1 else 0) - (if ms.forward then 1 else 0))
  }

  /** Each component is in {-1, 0, 1}, opposite keys cancel on their axis, and a
      single key gives a unit step along its own axis. */
  lemma MoveVectorLaws(ms: MoveState)
    ensures -1 <= MoveVector(ms).0 <= 1 && -1 <= MoveVector(ms).1 <= 1
    ensures ms.left == ms.right <==> MoveVector(ms).0 == 0
    ensures ms.forward == ms.backward <==> MoveVector(ms).1 == 0
    ensures MoveVector(ms).1 == -1 <==> ms.forward && !ms.backward
    ensures MoveVector(ms).0 == 1 <==> ms.right && !ms.left
  {
  }
}
